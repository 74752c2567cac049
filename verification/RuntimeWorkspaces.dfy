/** Which dependencies a package needs at run time, and which workspaces the services need. */
module RuntimeWorkspaces {
  import opened Prelude
  import opened SetSizes

  /** A group of dependencies, unless it is no object; a version is absent if it is no text. */
  type Group = Option<map<string, Option<string>>>

  /** `optionalPeers`: the peers that `peerDependenciesMeta` marks as optional. */
  datatype Manifest = Manifest(dependencies: Group, peers: Group, optionals: Group, optionalPeers: set<string>)

  datatype Spec = Spec(version: string, optional: bool)

  datatype Kind = DEPENDENCIES | PEERS | OPTIONALS

  predicate IsNameChar(c: char) {
    'a' <= c <= 'z' || 'A' <= c <= 'Z' || '0' <= c <= '9' || c == '_' || c == '.' || c == '-'
  }

  predicate IsPlainName(s: string) {
    s != "" && forall i | 0 <= i < |s| :: IsNameChar(s[i])
  }

  /** `(?:@[a-zA-Z0-9_.-]+/)?[a-zA-Z0-9_.-]+` */
  predicate IsPackageName(s: string) {
    || IsPlainName(s)
    || (s != "" && s[0] == '@' &&
        exists k | 0 < k < |s| :: s[k] == '/' && IsPlainName(s[1..k]) && IsPlainName(s[k + 1..]))
  }

  /** One name, or a scope and a name. */
  lemma PackageNamesExactly(s: string)
    ensures IsPackageName(s) <==> IsPlainName(s) || exists scope, name :: Scoped(s, scope, name)
  {
    if s != "" && s[0] == '@' {
      forall k | 0 < k < |s| && s[k] == '/' && IsPlainName(s[1..k]) && IsPlainName(s[k + 1..])
        ensures Scoped(s, s[1..k], s[k + 1..])
      {
        assert s == [s[0]] + s[1..k] + [s[k]] + s[k + 1..];
      }
    }
    forall scope, name | Scoped(s, scope, name)
      ensures IsPackageName(s)
    {
      var k := 1 + |scope|;
      assert s[1..k] == scope && s[k + 1..] == name;
    }
  }

  predicate Scoped(s: string, scope: string, name: string) {
    s == "@" + scope + "/" + name && IsPlainName(scope) && IsPlainName(name)
  }

  lemma PlainNamesExactly(s: string)
    ensures IsPlainName(s) <==>
              |s| > 0 && forall i | 0 <= i < |s| ::
                (!('A' <= s[i] <= 'Z') && !('a' <= s[i] <= 'z') && !('0' <= s[i] <= '9') ==> s[i] in {'_', '.', '-'})
  {
  }

  predicate ValidGroup(g: Group) {
    g.Some? && forall name | name in g.value :: g.value[name].Some? && IsPackageName(name)
  }

  predicate ValidManifest(m: Manifest) {
    ValidGroup(m.dependencies) && ValidGroup(m.peers) && ValidGroup(m.optionals)
  }

  predicate Lists(g: Group, name: string) {
    g.Some? && name in g.value
  }

  /** A dependency may be missing if it is an optional one, or an optional peer that is not required as well. */
  predicate MayBeMissing(m: Manifest, name: string) {
    Lists(m.optionals, name) || (!Lists(m.dependencies, name) && name in m.optionalPeers)
  }

  /** The version of the last group that lists the name. */
  function VersionOf(m: Manifest, name: string): string
    requires ValidManifest(m) && (Lists(m.dependencies, name) || Lists(m.peers, name) || Lists(m.optionals, name))
  {
    if Lists(m.optionals, name) then m.optionals.value[name].value
    else if Lists(m.peers, name) then m.peers.value[name].value
    else m.dependencies.value[name].value
  }

  /** One group after the others, each name in any order. */
  method AddGroup(kind: Kind, g: Group, optionalPeers: set<string>, before: map<string, Spec>)
    returns (r: Result<map<string, Spec>>)
    ensures r.Ok? <==> ValidGroup(g)
    ensures r.Ok? ==> r.value.Keys == before.Keys + g.value.Keys
    ensures r.Ok? ==> forall name | name in before && name !in g.value :: r.value[name] == before[name]
    ensures r.Ok? ==> forall name | name in g.value ::
              && Some(r.value[name].version) == g.value[name]
              && r.value[name].optional ==
                 (kind.OPTIONALS? ||
                  (kind.PEERS? && name in optionalPeers && (name in before ==> before[name].optional)))
  {
    if g.None? {
      return Err("PACKAGE_DEPENDENCIES_INVALID");
    }
    var values := g.value;
    var rest := values.Keys;
    var result := before;
    while rest != {}
      invariant rest <= values.Keys && result.Keys == before.Keys + (values.Keys - rest)
      invariant forall name | name in before && (name !in values || name in rest) :: result[name] == before[name]
      invariant forall name | name in values && name !in rest ::
                  && values[name].Some? && IsPackageName(name) && Some(result[name].version) == values[name]
                  && result[name].optional ==
                     (kind.OPTIONALS? ||
                      (kind.PEERS? && name in optionalPeers && (name in before ==> before[name].optional)))
      decreases rest
    {
      var name :| name in rest;
      if values[name].None? || !IsPackageName(name) {
        return Err("PACKAGE_DEPENDENCIES_INVALID");
      }
      var optional := kind.OPTIONALS? || (kind.PEERS? && name in optionalPeers);
      if name in result && !result[name].optional && !kind.OPTIONALS? {
        optional := false;
      }
      result := result[name := Spec(values[name].value, optional)];
      rest := rest - {name};
    }
    return Ok(result);
  }

  predicate Specifies(m: Manifest, specs: map<string, Spec>)
    requires ValidManifest(m)
  {
    && specs.Keys == m.dependencies.value.Keys + m.peers.value.Keys + m.optionals.value.Keys
    && forall name | name in specs :: specs[name] == Spec(VersionOf(m, name), MayBeMissing(m, name))
  }

  /** `dependency_specs` */
  method DependencySpecs(m: Manifest) returns (r: Result<map<string, Spec>>)
    ensures r.Ok? <==> ValidManifest(m)
    ensures r.Ok? ==> Specifies(m, r.value)
  {
    r := AddGroup(DEPENDENCIES, m.dependencies, m.optionalPeers, map[]);
    if r.Err? { return; }
    var first := r.value;
    r := AddGroup(PEERS, m.peers, m.optionalPeers, first);
    if r.Err? { return; }
    var second := r.value;
    r := AddGroup(OPTIONALS, m.optionals, m.optionalPeers, second);
  }

  datatype Workspace = Workspace(directory: string, manifest: Manifest)

  const WORKSPACE_PREFIX := "workspace:"

  predicate IsWorkspaceVersion(version: string) {
    WORKSPACE_PREFIX <= version
  }

  lemma WorkspaceVersionsExactly(version: string)
    ensures IsWorkspaceVersion(version) <==> |version| >= 10 && version[..10] == "workspace:"
  {
  }

  /** The package needs this one from the same checkout. */
  predicate NeedsWorkspace(m: Manifest, name: string)
    requires ValidManifest(m)
  {
    && (Lists(m.dependencies, name) || Lists(m.peers, name) || Lists(m.optionals, name))
    && IsWorkspaceVersion(VersionOf(m, name))
  }

  /** The set has with each usable workspace also those that it needs. */
  ghost predicate ClosedUnderNeeds(catalog: map<string, Workspace>, s: set<string>) {
    forall name, needed |
      name in s && name in catalog && ValidManifest(catalog[name].manifest) && NeedsWorkspace(catalog[name].manifest, needed)
      :: needed in s
  }

  method WorkspaceNames(specs: map<string, Spec>) returns (names: seq<string>)
    ensures forall name :: name in names <==> name in specs && IsWorkspaceVersion(specs[name].version)
  {
    names := [];
    var rest := specs.Keys;
    while rest != {}
      invariant rest <= specs.Keys
      invariant forall name :: name in names <==> name in specs && name !in rest && IsWorkspaceVersion(specs[name].version)
      decreases rest
    {
      var name :| name in rest;
      rest := rest - {name};
      if IsWorkspaceVersion(specs[name].version) {
        names := names + [name];
      }
    }
  }

  /** Every closed set around the roots. */
  ghost predicate Around(catalog: map<string, Workspace>, roots: seq<string>, s: set<string>) {
    ClosedUnderNeeds(catalog, s) && forall name | name in roots :: name in s
  }

  /** Every set around the roots has it. */
  ghost predicate Needed(catalog: map<string, Workspace>, roots: seq<string>, name: string) {
    forall s | Around(catalog, roots, s) :: name in s
  }

  /** Everything that the package needs is selected or pending. */
  ghost predicate Followed(m: Manifest, selected: map<string, Workspace>, pending: seq<string>)
    requires ValidManifest(m)
  {
    forall needed | NeedsWorkspace(m, needed) :: needed in selected || needed in pending
  }

  /** What the worklist knows: everything met so far is really needed, and nothing needed is forgotten. */
  ghost predicate Working(catalog: map<string, Workspace>, roots: seq<string>, selected: map<string, Workspace>, pending: seq<string>) {
    && (forall name | name in selected ::
          name in catalog && selected[name] == catalog[name] && ValidManifest(catalog[name].manifest))
    && (forall name | name in selected || name in pending :: Needed(catalog, roots, name))
    && (forall name | name in roots :: name in selected || name in pending)
    && (forall name | name in selected :: Followed(selected[name].manifest, selected, pending))
  }

  lemma Select(catalog: map<string, Workspace>, roots: seq<string>, selected: map<string, Workspace>,
               pending: seq<string>, name: string, names: seq<string>)
    requires Working(catalog, roots, selected, pending + [name]) && name !in selected
    requires name in catalog && ValidManifest(catalog[name].manifest)
    requires forall n :: n in names <==> NeedsWorkspace(catalog[name].manifest, n)
    ensures Working(catalog, roots, selected[name := catalog[name]], pending + names)
  {
    forall s | Around(catalog, roots, s)
      ensures name in s
    {
      assert name in pending + [name];
    }
  }

  lemma OneFewerLeft(catalog: map<string, Workspace>, selected: map<string, Workspace>, name: string)
    requires name in catalog && name !in selected
    ensures |catalog.Keys - selected[name := catalog[name]].Keys| < |catalog.Keys - selected.Keys|
  {
    assert selected[name := catalog[name]].Keys == selected.Keys + {name};
    OneFewer(catalog.Keys, selected.Keys, name);
  }

  lemma Skip(catalog: map<string, Workspace>, roots: seq<string>, selected: map<string, Workspace>,
             pending: seq<string>, name: string)
    requires Working(catalog, roots, selected, pending + [name]) && name in selected
    ensures Working(catalog, roots, selected, pending)
  {
  }

  /** Something that every set around the roots has is missing or has no valid manifest. */
  ghost predicate CannotBeMet(catalog: map<string, Workspace>, roots: seq<string>) {
    forall s | Around(catalog, roots, s) ::
      exists name :: name in s && (name !in catalog || !ValidManifest(catalog[name].manifest))
  }

  lemma Unmet(catalog: map<string, Workspace>, roots: seq<string>, selected: map<string, Workspace>,
              pending: seq<string>, name: string)
    requires Working(catalog, roots, selected, pending + [name])
    requires name !in catalog || !ValidManifest(catalog[name].manifest)
    ensures CannotBeMet(catalog, roots)
  {
    forall s | Around(catalog, roots, s)
      ensures name in s
    {
      assert name in pending + [name];
    }
  }

  method NeededWorkspaces(m: Manifest) returns (r: Result<seq<string>>)
    ensures r.Ok? <==> ValidManifest(m)
    ensures r.Ok? ==> forall name :: name in r.value <==> NeedsWorkspace(m, name)
  {
    var specs := DependencySpecs(m);
    if specs.Err? {
      return Err(specs.code);
    }
    var names := WorkspaceNames(specs.value);
    return Ok(names);
  }

  /** `runtime_workspaces`: the least set around the service roots, or a need that cannot be met. */
  method SelectWorkspaces(catalog: map<string, Workspace>, roots: seq<string>) returns (r: Result<map<string, Workspace>>)
    ensures r.Ok? ==> Working(catalog, roots, r.value, [])
    ensures r.Err? ==> CannotBeMet(catalog, roots)
  {
    var selected: map<string, Workspace> := map[];
    var pending := roots;
    while pending != []
      invariant Working(catalog, roots, selected, pending)
      decreases |catalog.Keys - selected.Keys|, |pending|
    {
      var name, rest := pending[|pending| - 1], pending[..|pending| - 1];
      SplitLast(pending);
      pending := rest;
      if name in selected {
        Skip(catalog, roots, selected, rest, name);
        continue;
      }
      if name !in catalog {
        Unmet(catalog, roots, selected, rest, name);
        return Err("PACKAGE_WORKSPACE_MISSING");
      }
      var needed := NeededWorkspaces(catalog[name].manifest);
      if needed.Err? {
        Unmet(catalog, roots, selected, rest, name);
        return Err(needed.code);
      }
      Select(catalog, roots, selected, rest, name, needed.value);
      OneFewerLeft(catalog, selected, name);
      selected := selected[name := catalog[name]];
      pending := pending + needed.value;
    }
    return Ok(selected);
  }

  /** The selected workspaces are around the roots, and every set around the roots has them all. */
  lemma SelectionIsLeast(catalog: map<string, Workspace>, roots: seq<string>, selected: map<string, Workspace>)
    requires Working(catalog, roots, selected, [])
    ensures Around(catalog, roots, selected.Keys)
    ensures forall s | Around(catalog, roots, s) :: selected.Keys <= s
  {
    forall name, needed | name in selected.Keys && NeedsWorkspace(catalog[name].manifest, needed)
      ensures needed in selected.Keys
    {
      assert NeedsWorkspace(selected[name].manifest, needed);
    }
  }
}
