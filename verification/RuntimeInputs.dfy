/** The paths of the checkout that the runtime of the operator needs. */
module RuntimeInputs {
  import opened Prelude
  import opened SetSizes

  datatype Requirement = Requirement(name: string, version: string)

  /** A workspace package: its directory, and the entries of its four groups of dependencies in turn. */
  datatype Package = Package(directory: string, requirements: seq<Requirement>)

  const ROOT := "@product/telegram-operator"
  const OPERATIONS := "tooling/operations"
  const FIXED := ["package.json", "pnpm-lock.yaml", "pnpm-workspace.yaml", "tsconfig.base.json", ".npmrc",
                  "tooling/server/monitor-pilot-authority.ts"]

  predicate FromWorkspace(r: Requirement) {
    "workspace:" <= r.version
  }

  /** One of the first requirements of the package names a workspace package. */
  predicate Wants(p: Package, n: nat, name: string)
    requires n <= |p.requirements|
  {
    exists i | 0 <= i < n :: FromWorkspace(p.requirements[i]) && p.requirements[i].name == name
  }

  predicate WantsAny(p: Package, name: string) {
    Wants(p, |p.requirements|, name)
  }

  /** The set has the root, and with every known package all workspace packages that it wants. */
  ghost predicate Around(catalog: map<string, Package>, s: set<string>) {
    ROOT in s && forall name, wanted | name in s && name in catalog && WantsAny(catalog[name], wanted) :: wanted in s
  }

  /** The smallest set around the root, all of it known. */
  ghost predicate Least(catalog: map<string, Package>, s: set<string>) {
    Around(catalog, s) && s <= catalog.Keys && forall t | Around(catalog, t) :: s <= t
  }

  function DirectoriesOf(catalog: map<string, Package>, s: set<string>): set<string> {
    set name | name in s && name in catalog :: catalog[name].directory
  }

  /** The directory of a package of the set, one of six tracked files, or the directory of the operations. */
  ghost predicate Asked(catalog: map<string, Package>, s: set<string>, tracked: set<string>, path: string) {
    || (exists name | name in s && name in catalog :: path == catalog[name].directory)
    || (path in tracked
        && (path == "package.json" || path == "pnpm-lock.yaml" || path == "pnpm-workspace.yaml"
            || path == "tsconfig.base.json" || path == ".npmrc" || path == "tooling/server/monitor-pilot-authority.ts"))
    || path == "tooling/operations"
  }

  /** The version begins with the name of the protocol. */
  lemma FromWorkspaceExactly(r: Requirement)
    ensures FromWorkspace(r) <==> |r.version| >= 10 && r.version[..10] == "workspace:"
  {
  }

  ghost predicate Needed(catalog: map<string, Package>, name: string) {
    forall s | Around(catalog, s) :: name in s
  }

  /** Everything that has been met is needed, and nothing that a visited package wants is forgotten. */
  ghost predicate Working(catalog: map<string, Package>, visited: set<string>, pending: seq<string>) {
    && visited <= catalog.Keys
    && (ROOT in visited || ROOT in pending)
    && (forall name | name in visited || name in pending :: Needed(catalog, name))
    && (forall name, wanted | name in visited && WantsAny(catalog[name], wanted) :: wanted in visited || wanted in pending)
  }

  lemma Visit(catalog: map<string, Package>, visited: set<string>, pending: seq<string>, name: string, wanted: seq<string>)
    requires Working(catalog, visited, pending + [name]) && name in catalog
    requires forall w :: w in wanted <==> WantsAny(catalog[name], w)
    ensures Working(catalog, visited + {name}, pending + wanted)
  {
    assert name in pending + [name];
    forall w | w in wanted
      ensures Needed(catalog, w)
    {
    }
  }

  lemma Done(catalog: map<string, Package>, visited: set<string>)
    requires Working(catalog, visited, [])
    ensures Least(catalog, visited)
  {
    forall t | Around(catalog, t)
      ensures visited <= t
    {
    }
  }

  /** The inner loops over the dependencies of one package. */
  method Wanted(p: Package) returns (names: seq<string>)
    ensures forall name :: name in names <==> WantsAny(p, name)
  {
    names := [];
    for i := 0 to |p.requirements|
      invariant forall name :: name in names <==> Wants(p, i, name)
    {
      if FromWorkspace(p.requirements[i]) {
        names := names + [p.requirements[i].name];
      }
    }
  }

  lemma Skip(catalog: map<string, Package>, visited: set<string>, pending: seq<string>, name: string)
    requires Working(catalog, visited, pending + [name]) && name in visited
    ensures Working(catalog, visited, pending)
  {
  }

  /** Something that every set around the root has is not in the checkout. */
  ghost predicate Unmet(catalog: map<string, Package>) {
    forall s | Around(catalog, s) :: !(s <= catalog.Keys)
  }

  lemma Missing(catalog: map<string, Package>, visited: set<string>, pending: seq<string>, name: string)
    requires Working(catalog, visited, pending + [name]) && name !in catalog
    ensures Unmet(catalog)
  {
    assert name in pending + [name];
  }

  lemma Start(catalog: map<string, Package>)
    ensures Working(catalog, {}, [ROOT])
  {
  }

  /** The worklist over the packages. */
  method Packages(catalog: map<string, Package>) returns (visited: set<string>, missing: bool)
    ensures if missing then Unmet(catalog) else Least(catalog, visited)
  {
    visited, missing := {}, false;
    var pending := [ROOT];
    Start(catalog);
    while pending != []
      invariant Working(catalog, visited, pending)
      decreases |catalog.Keys - visited|, |pending|
    {
      var name, rest := pending[|pending| - 1], pending[..|pending| - 1];
      SplitLast(pending);
      pending := rest;
      if name in visited {
        Skip(catalog, visited, rest, name);
        continue;
      }
      if name !in catalog {
        Missing(catalog, visited, rest, name);
        missing := true;
        return;
      }
      var wanted := Wanted(catalog[name]);
      Visit(catalog, visited, rest, name, wanted);
      OneFewer(catalog.Keys, visited, name);
      visited := visited + {name};
      pending := pending + wanted;
    }
    Done(catalog, visited);
  }

  /** The fixed places that are tracked. */
  method TrackedOf(places: seq<string>, tracked: set<string>) returns (paths: set<string>)
    ensures paths == set f | f in places && f in tracked
  {
    paths := {};
    for i := 0 to |places|
      invariant paths == set f | f in places[..i] && f in tracked
    {
      assert places[..i + 1] == places[..i] + [places[i]];
      if places[i] in tracked {
        paths := paths + {places[i]};
      }
    }
    assert places[..|places|] == places;
  }

  /**
   * `runtime_inputs`: the directories of exactly the packages that the root needs, directly or not, with
   * the tracked files at fixed places; an error exactly when one of those packages is not in the checkout.
   */
  method Inputs(catalog: map<string, Package>, tracked: set<string>) returns (r: Result<set<string>>, ghost least: set<string>)
    ensures r.Ok? ==>
              && Least(catalog, least)
              && r.value == DirectoriesOf(catalog, least) + (set f | f in FIXED && f in tracked) + {OPERATIONS}
    ensures r.Ok? ==> forall path :: path in r.value <==> Asked(catalog, least, tracked, path)
    ensures r.Err? ==> Unmet(catalog)
  {
    var visited, missing := Packages(catalog);
    least := visited;
    if missing {
      return Err("MISSING_WORKSPACE_PACKAGE"), least;
    }
    var fixed := TrackedOf(FIXED, tracked);
    r := Ok(DirectoriesOf(catalog, visited) + fixed + {OPERATIONS});
  }
}
