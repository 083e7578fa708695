/** The execution graph: nodes with the same dependencies form a group that may run in parallel. */
module ParallelGroups {
  import opened Workflows
  import opened Graphs
  import opened Degrees

  /** The sources of the connections that arrive at `v`, in the order of the connections. */
  function Sources(cs: seq<Connection>, v: Id): seq<Id> {
    if cs == [] then []
    else
      var before := Sources(cs[..|cs| - 1], v);
      var last := cs[|cs| - 1];
      if last.target == v then before + [last.source] else before
  }

  lemma {:induction false} SourcesAreEdges(cs: seq<Connection>, u: Id, v: Id)
    ensures u in Sources(cs, v) <==> Edge(cs, u, v)
  {
    if cs == [] {
    } else {
      SourcesAreEdges(cs[..|cs| - 1], u, v);
      assert cs == cs[..|cs| - 1] + [cs[|cs| - 1]];
    }
  }

  lemma SourcesNext(cs: seq<Connection>, c: Connection, v: Id)
    ensures Sources(cs + [c], v) == Sources(cs, v) + if c.target == v then [c.source] else []
  {
    assert (cs + [c])[..|cs|] == cs;
  }

  method BuildDependencies(cs: seq<Connection>) returns (dependsOn: map<Id, seq<Id>>)
    ensures dependsOn.Keys == TargetIds(cs)
    ensures forall v :: v in dependsOn ==> dependsOn[v] == Sources(cs, v)
  {
    dependsOn := map[];
    for i := 0 to |cs|
      invariant dependsOn.Keys == TargetIds(cs[..i])
      invariant forall v :: if v in dependsOn then dependsOn[v] == Sources(cs[..i], v) else Sources(cs[..i], v) == []
    {
      assert cs[..i + 1] == cs[..i] + [cs[i]] && cs[..i + 1][..i] == cs[..i];
      var c := cs[i];
      if c.target in dependsOn {
        dependsOn := dependsOn[c.target := dependsOn[c.target] + [c.source]];
      } else {
        dependsOn := dependsOn[c.target := [c.source]];
      }
    }
    assert cs[..|cs|] == cs;
  }

  // The dependency key.

  /** Each dependency followed by a comma. */
  function Key(deps: seq<Id>): string {
    if deps == [] then "" else deps[0].name + "," + Key(deps[1..])
  }

  method CreateDependencyKey(deps: seq<Id>) returns (key: string)
    ensures key == Key(deps)
  {
    key := "";
    for i := 0 to |deps|
      invariant Key(deps) == key + Key(deps[i..])
    {
      assert deps[i..][1..] == deps[i + 1..];
      key := key + deps[i].name + ",";
    }
  }

  predicate CommaFree(deps: seq<Id>) {
    forall i :: 0 <= i < |deps| ==> ',' !in deps[i].name
  }

  /** A word ends at the first comma after it. */
  lemma FirstWord(a: string, x: string, b: string, y: string)
    requires ',' !in a && ',' !in b && a + "," + x == b + "," + y
    ensures a == b && x == y
  {
    var s, t := a + "," + x, b + "," + y;
    assert s[|a|] == ',' && t[|b|] == ',';
    assert forall k :: 0 <= k < |a| ==> s[k] == a[k];
    assert forall k :: 0 <= k < |b| ==> t[k] == b[k];
    assert |a| == |b|;
    assert a == s[..|a|] && b == t[..|b|];
    assert x == s[|a| + 1..] && y == t[|b| + 1..];
  }

  /** Without commas in the names the key determines the dependencies. */
  lemma {:induction false} KeyInjective(a: seq<Id>, b: seq<Id>)
    requires CommaFree(a) && CommaFree(b) && Key(a) == Key(b)
    ensures a == b
  {
    if a == [] || b == [] {
    } else {
      FirstWord(a[0].name, Key(a[1..]), b[0].name, Key(b[1..]));
      KeyInjective(a[1..], b[1..]);
      assert a == [a[0]] + a[1..] && b == [b[0]] + b[1..];
    }
  }

  // The groups.

  datatype Group = Group(ids: seq<Id>, maxConcurrency: nat)

  /** `ids` are the targets of connections whose dependencies have the key `key`. */
  ghost predicate WithKey(cs: seq<Connection>, key: string, ids: seq<Id>) {
    Distinct(ids) && forall v :: v in ids <==> v in TargetIds(cs) && Key(Sources(cs, v)) == key
  }

  ghost predicate GroupsByKey(cs: seq<Connection>, groups: seq<Group>) {
    && (forall g :: g in groups ==> |g.ids| > 1 && g.maxConcurrency == |g.ids| && exists key :: WithKey(cs, key, g.ids))
    && (forall v, w :: v != w && v in TargetIds(cs) && w in TargetIds(cs) && Key(Sources(cs, v)) == Key(Sources(cs, w)) ==>
          Together(groups, v, w))
    && (forall i, j :: 0 <= i < j < |groups| ==> Elems(groups[i].ids) !! Elems(groups[j].ids))
  }

  ghost predicate Together(groups: seq<Group>, v: Id, w: Id) {
    exists g :: g in groups && v in g.ids && w in g.ids
  }

  /** The key map after the nodes outside `rest` have been entered. */
  ghost predicate Keyed(cs: seq<Connection>, done: set<Id>, byKey: map<string, seq<Id>>) {
    && (forall key :: key in byKey ==> Distinct(byKey[key]) && byKey[key] != [])
    && (forall key, v :: key in byKey && v in byKey[key] ==> v in done && Key(Sources(cs, v)) == key)
    && (forall v :: v in done ==> Key(Sources(cs, v)) in byKey && v in byKey[Key(Sources(cs, v))])
  }

  lemma KeyedNext(cs: seq<Connection>, done: set<Id>, byKey: map<string, seq<Id>>, v: Id)
    requires Keyed(cs, done, byKey) && v !in done
    ensures var key := Key(Sources(cs, v));
            Keyed(cs, done + {v}, byKey[key := (if key in byKey then byKey[key] else []) + [v]])
  {
    var key := Key(Sources(cs, v));
    var before := if key in byKey then byKey[key] else [];
    assert v !in before;
    ElemsAppend(before, v);
  }

  method GroupByKey(cs: seq<Connection>, dependsOn: map<Id, seq<Id>>) returns (byKey: map<string, seq<Id>>)
    requires dependsOn.Keys == TargetIds(cs) && forall v :: v in dependsOn ==> dependsOn[v] == Sources(cs, v)
    ensures Keyed(cs, TargetIds(cs), byKey)
  {
    byKey := map[];
    var rest := dependsOn.Keys;
    while rest != {}
      invariant rest <= dependsOn.Keys && Keyed(cs, dependsOn.Keys - rest, byKey)
    {
      var v :| v in rest;
      TargetHasSource(cs, v);
      if |dependsOn[v]| > 0 {
        var key := CreateDependencyKey(dependsOn[v]);
        KeyedNext(cs, dependsOn.Keys - rest, byKey, v);
        byKey := byKey[key := (if key in byKey then byKey[key] else []) + [v]];
      }
      assert dependsOn.Keys - (rest - {v}) == dependsOn.Keys - rest + {v};
      rest := rest - {v};
    }
  }

  lemma TargetHasSource(cs: seq<Connection>, v: Id)
    requires v in TargetIds(cs)
    ensures Sources(cs, v) != []
  {
    var c :| c in cs && c.target == v;
    SourcesAreEdges(cs, c.source, v);
  }

  method IdentifyParallelGroups(cs: seq<Connection>, dependsOn: map<Id, seq<Id>>) returns (groups: seq<Group>)
    requires dependsOn.Keys == TargetIds(cs) && forall v :: v in dependsOn ==> dependsOn[v] == Sources(cs, v)
    ensures GroupsByKey(cs, groups)
  {
    var byKey := GroupByKey(cs, dependsOn);
    groups := [];
    var rest := byKey.Keys;
    while rest != {}
      invariant rest <= byKey.Keys && Collected(byKey, byKey.Keys - rest, groups)
    {
      var key :| key in rest;
      CollectedNext(byKey, byKey.Keys - rest, groups, key, cs);
      if |byKey[key]| > 1 {
        groups := groups + [Group(byKey[key], |byKey[key]|)];
      }
      assert byKey.Keys - (rest - {key}) == byKey.Keys - rest + {key};
      rest := rest - {key};
    }
    CollectedAll(cs, byKey, groups);
  }

  /** A group for each of the keys that several nodes share. */
  ghost predicate Collected(byKey: map<string, seq<Id>>, done: set<string>, groups: seq<Group>) {
    && (forall key :: key in done && key in byKey && |byKey[key]| > 1 ==> Group(byKey[key], |byKey[key]|) in groups)
    && (forall g :: g in groups ==> FromKey(byKey, done, g))
    && (forall i, j :: 0 <= i < j < |groups| ==> Elems(groups[i].ids) !! Elems(groups[j].ids))
  }

  ghost predicate FromKey(byKey: map<string, seq<Id>>, done: set<string>, g: Group) {
    exists key :: key in done && key in byKey && g == Group(byKey[key], |byKey[key]|) && |g.ids| > 1
  }

  lemma CollectedNext(byKey: map<string, seq<Id>>, done: set<string>, groups: seq<Group>, key: string, cs: seq<Connection>)
    requires Collected(byKey, done, groups) && key in byKey && key !in done && Keyed(cs, TargetIds(cs), byKey)
    ensures Collected(byKey, done + {key},
                      if |byKey[key]| > 1 then groups + [Group(byKey[key], |byKey[key]|)] else groups)
  {
    forall g | g in groups
      ensures FromKey(byKey, done + {key}, g) && Elems(g.ids) !! Elems(byKey[key])
    {
      assert FromKey(byKey, done, g);
      var k :| k in done && k in byKey && g == Group(byKey[k], |byKey[k]|) && |g.ids| > 1;
      assert k in done + {key};
      forall v | v in g.ids
        ensures v !in byKey[key]
      {
        if v in byKey[key] {
          OneKey(cs, byKey, k, key, v);
        }
      }
    }
    if |byKey[key]| > 1 {
      var added := Group(byKey[key], |byKey[key]|);
      assert FromKey(byKey, done + {key}, added);
      DisjointNext(groups, added);
    }
  }

  lemma OneKey(cs: seq<Connection>, byKey: map<string, seq<Id>>, k: string, l: string, v: Id)
    requires Keyed(cs, TargetIds(cs), byKey) && k in byKey && l in byKey && v in byKey[k] && v in byKey[l]
    ensures k == l
  {
    assert Key(Sources(cs, v)) == k;
    assert Key(Sources(cs, v)) == l;
  }

  lemma DisjointNext(groups: seq<Group>, g: Group)
    requires forall i, j :: 0 <= i < j < |groups| ==> Elems(groups[i].ids) !! Elems(groups[j].ids)
    requires forall h :: h in groups ==> Elems(h.ids) !! Elems(g.ids)
    ensures forall i, j :: 0 <= i < j < |groups + [g]| ==> Elems((groups + [g])[i].ids) !! Elems((groups + [g])[j].ids)
  {
  }

  lemma CollectedAll(cs: seq<Connection>, byKey: map<string, seq<Id>>, groups: seq<Group>)
    requires Keyed(cs, TargetIds(cs), byKey) && Collected(byKey, byKey.Keys, groups)
    ensures GroupsByKey(cs, groups)
  {
    forall g | g in groups
      ensures |g.ids| > 1 && g.maxConcurrency == |g.ids| && exists key :: WithKey(cs, key, g.ids)
    {
      assert FromKey(byKey, byKey.Keys, g);
      var key :| key in byKey && g == Group(byKey[key], |byKey[key]|) && |g.ids| > 1;
      assert WithKey(cs, key, g.ids);
    }
    forall v, w | v != w && v in TargetIds(cs) && w in TargetIds(cs) && Key(Sources(cs, v)) == Key(Sources(cs, w))
      ensures Together(groups, v, w)
    {
      var ids := byKey[Key(Sources(cs, v))];
      assert v in ids && w in ids;
      var i :| 0 <= i < |ids| && ids[i] == v;
      var j :| 0 <= j < |ids| && ids[j] == w;
      assert Group(ids, |ids|) in groups;
    }
  }

  method BuildExecutionGraph(w: Workflow) returns (groups: seq<Group>)
    ensures GroupsByKey(w.connections, groups)
  {
    var dependsOn := BuildDependencies(w.connections);
    groups := IdentifyParallelGroups(w.connections, dependsOn);
  }

  // What a group promises.

  /** In an acyclic workflow two nodes with the same dependencies are not joined by a path: it would pass through
      a shared dependency and close a cycle. */
  lemma SameDependenciesApart(cs: seq<Connection>, v: Id, w: Id, p: seq<Id>)
    requires Acyclic(cs) && v != w && Sources(cs, v) == Sources(cs, w)
    ensures !PathBetween(cs, v, w, p)
  {
    if PathBetween(cs, v, w, p) {
      ClosesCycle(cs, v, w, p);
    }
  }

  lemma ClosesCycle(cs: seq<Connection>, v: Id, w: Id, p: seq<Id>)
    requires v != w && Sources(cs, v) == Sources(cs, w) && PathBetween(cs, v, w, p)
    ensures !Acyclic(cs)
  {
    var n := |p| - 1;
    assert Joined(cs, p, n - 1);
    SourcesAreEdges(cs, p[n - 1], w);
    SourcesAreEdges(cs, p[n - 1], v);
    Slice(cs, p, 0, n);
    Extend(cs, p[..n], v);
    var cycle := p[..n] + [v];
    assert IsPath(cs, cycle) && |cycle| >= 2 && cycle[0] == Last(cycle);
  }

  ghost predicate CommaFreeSources(cs: seq<Connection>) {
    forall c :: c in cs ==> ',' !in c.source.name
  }

  lemma SourcesCommaFree(cs: seq<Connection>, v: Id)
    requires CommaFreeSources(cs)
    ensures CommaFree(Sources(cs, v))
  {
    forall i | 0 <= i < |Sources(cs, v)|
      ensures ',' !in Sources(cs, v)[i].name
    {
      SourcesAreEdges(cs, Sources(cs, v)[i], v);
    }
  }

  /** Without commas in the names of sources, nodes are grouped exactly by their dependencies. */
  lemma GroupedByDependencies(cs: seq<Connection>, groups: seq<Group>, v: Id, w: Id)
    requires GroupsByKey(cs, groups) && CommaFreeSources(cs) && v != w
    ensures Together(groups, v, w) <==> v in TargetIds(cs) && w in TargetIds(cs) && Sources(cs, v) == Sources(cs, w)
  {
    if Together(groups, v, w) {
      var g :| g in groups && v in g.ids && w in g.ids;
      var key :| WithKey(cs, key, g.ids);
      SourcesCommaFree(cs, v);
      SourcesCommaFree(cs, w);
      KeyInjective(Sources(cs, v), Sources(cs, w));
    }
  }

  /** The members of a group can run in parallel: no path leads from one to another. */
  lemma GroupMembersApart(cs: seq<Connection>, groups: seq<Group>, v: Id, w: Id, p: seq<Id>)
    requires GroupsByKey(cs, groups) && CommaFreeSources(cs) && Acyclic(cs)
    requires v != w && Together(groups, v, w)
    ensures !PathBetween(cs, v, w, p) && !PathBetween(cs, w, v, p)
  {
    GroupedByDependencies(cs, groups, v, w);
    SameDependenciesApart(cs, v, w, p);
    SameDependenciesApart(cs, w, v, p);
  }

  // Commas in names.

  /** The words between the commas of `s`. */
  function Words(s: string): (words: seq<Id>)
    ensures words != []
  {
    if s == "" then [Id("")]
    else
      var rest := Words(s[1..]);
      if s[0] == ',' then [Id("")] + rest else [Id([s[0]] + rest[0].name)] + rest[1..]
  }

  /** The words of a name have no commas, and their key is the key of the name. */
  lemma {:induction false} WordsSpell(s: string)
    ensures Key(Words(s)) == s + "," && CommaFree(Words(s))
  {
    if s == "" {
    } else {
      WordsSpell(s[1..]);
      KeyGrows(s[0], Words(s[1..]));
      assert s == [s[0]] + s[1..];
    }
  }

  lemma KeyGrows(c: char, words: seq<Id>)
    requires words != []
    ensures Key([Id("")] + words) == "," + Key(words)
    ensures Key([Id([c] + words[0].name)] + words[1..]) == [c] + Key(words)
  {
    KeyCons(Id(""), words);
    KeyCons(Id([c] + words[0].name), words[1..]);
    assert Key(words) == words[0].name + "," + Key(words[1..]);
    Prepends(c, words[0].name + ",", Key(words[1..]));
    Prepends(c, words[0].name, ",");
  }

  lemma KeyCons(word: Id, words: seq<Id>)
    ensures Key([word] + words) == word.name + "," + Key(words)
  {
    assert ([word] + words)[1..] == words;
  }

  lemma Prepends(c: char, s: string, t: string)
    ensures [c] + s + t == [c] + (s + t)
  {
  }

  lemma {:induction false} WordsShort(s: string, i: nat)
    requires i < |Words(s)|
    ensures |Words(s)[i].name| <= |s| && (',' in s ==> |Words(s)[i].name| < |s|)
  {
    if s == "" {
    } else {
      assert s == [s[0]] + s[1..];
      if s[0] != ',' || i > 0 {
        WordsShort(s[1..], if s[0] == ',' then i - 1 else i);
      }
    }
  }

  function Into(ids: seq<Id>, x: Id): (cs: seq<Connection>)
    ensures |cs| == |ids| && forall i :: 0 <= i < |ids| ==> cs[i] == Connection(ids[i], x)
  {
    seq(|ids|, i requires 0 <= i < |ids| => Connection(ids[i], x))
  }

  lemma {:induction false} SourcesInto(ids: seq<Id>, x: Id, v: Id)
    ensures Sources(Into(ids, x), v) == if v == x then ids else []
  {
    if ids == [] {
    } else {
      var n := |ids| - 1;
      SourcesInto(ids[..n], x, v);
      assert Into(ids, x)[..n] == Into(ids[..n], x);
      assert ids == ids[..n] + [ids[n]];
    }
  }

  ghost predicate Lengthens(cs: seq<Connection>) {
    forall u, v :: Edge(cs, u, v) ==> |u.name| < |v.name|
  }

  lemma {:induction false} PathLengthens(cs: seq<Connection>, p: seq<Id>)
    requires Lengthens(cs) && IsPath(cs, p)
    ensures |p[0].name| + |p| - 1 <= |Last(p).name|
  {
    if |p| == 1 {
    } else {
      var n := |p| - 1;
      Slice(cs, p, 0, n);
      PathLengthens(cs, p[..n]);
      assert Joined(cs, p, n - 1);
    }
  }

  /** All sources but `x` are free of commas. */
  ghost predicate CommaFreeBut(cs: seq<Connection>, x: Id) {
    forall c :: c in cs && c.source != x ==> ',' !in c.source.name
  }

  ghost predicate MembersApart(cs: seq<Connection>, groups: seq<Group>) {
    forall v, w, p :: v != w && Together(groups, v, w) ==> !PathBetween(cs, v, w, p)
  }

  /** The words of `x` lead to `x`, and `x` leads to `y`. */
  function CommaCase(x: Id, y: Id): seq<Connection> {
    Into(Words(x.name), x) + [Connection(x, y)]
  }

  /** With a comma in its name, a node can share a group with a node that depends on it. */
  lemma CommaMisgroups(x: Id) returns (y: Id, groups: seq<Group>)
    requires ',' in x.name
    ensures x != y && Edge(CommaCase(x, y), x, y) && Acyclic(CommaCase(x, y)) && CommaFreeBut(CommaCase(x, y), x)
    ensures GroupsByKey(CommaCase(x, y), groups) && Together(groups, x, y)
  {
    y := Id(x.name + "'");
    groups := [Group([x, y], 2)];
    CommaCaseAcyclic(x, y);
    CommaCaseKeys(x, y);
    WordsSpell(x.name);
    PairGroups(CommaCase(x, y), x, y, x.name + ",");
    assert CommaCase(x, y)[|Words(x.name)|] == Connection(x, y);
    assert groups[0] in groups;
  }

  lemma CommaCaseKeys(x: Id, y: Id)
    requires x != y
    ensures TargetIds(CommaCase(x, y)) == {x, y}
    ensures Key(Sources(CommaCase(x, y), x)) == Key(Sources(CommaCase(x, y), y)) == x.name + ","
  {
    var ids := Words(x.name);
    SourcesInto(ids, x, x);
    SourcesInto(ids, x, y);
    SourcesNext(Into(ids, x), Connection(x, y), x);
    SourcesNext(Into(ids, x), Connection(x, y), y);
    WordsSpell(x.name);
    assert Key([x]) == x.name + "," + Key([]);
    assert CommaCase(x, y)[0].target == x && CommaCase(x, y)[|ids|].target == y;
  }

  lemma PairGroups(cs: seq<Connection>, x: Id, y: Id, key: string)
    requires x != y && TargetIds(cs) == {x, y} && Key(Sources(cs, x)) == Key(Sources(cs, y)) == key
    ensures GroupsByKey(cs, [Group([x, y], 2)])
  {
    assert WithKey(cs, key, [x, y]);
    var groups := [Group([x, y], 2)];
    assert groups[0] in groups;
    assert Together(groups, x, y) && Together(groups, y, x);
  }

  lemma CommaCaseAcyclic(x: Id, y: Id)
    requires ',' in x.name && |x.name| < |y.name|
    ensures Acyclic(CommaCase(x, y))
  {
    var cs := CommaCase(x, y);
    forall u, v | Edge(cs, u, v)
      ensures |u.name| < |v.name|
    {
      if u in Words(x.name) && v == x {
        var i :| 0 <= i < |Words(x.name)| && Words(x.name)[i] == u;
        WordsShort(x.name, i);
      }
    }
    forall p | IsPath(cs, p) && |p| >= 2
      ensures p[0] != Last(p)
    {
      PathLengthens(cs, p);
    }
  }

  /** Exactly the names without a comma are harmless: when all other sources have none either, the members of every
      group of every acyclic workflow are apart. */
  lemma CommasExactly(x: Id)
    ensures ',' !in x.name <==>
            forall cs, groups :: Acyclic(cs) && CommaFreeBut(cs, x) && GroupsByKey(cs, groups) ==> MembersApart(cs, groups)
  {
    if ',' in x.name {
      var y, groups := CommaMisgroups(x);
      var cs := CommaCase(x, y);
      assert Joined(cs, [x, y], 0);
      assert PathBetween(cs, x, y, [x, y]);
      assert !MembersApart(cs, groups);
    } else {
      forall cs, groups | Acyclic(cs) && CommaFreeBut(cs, x) && GroupsByKey(cs, groups)
        ensures MembersApart(cs, groups)
      {
        forall v, w, p | v != w && Together(groups, v, w)
          ensures !PathBetween(cs, v, w, p)
        {
          GroupMembersApart(cs, groups, v, w, p);
        }
      }
    }
  }
}
