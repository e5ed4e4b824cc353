/**
 * The registry of build-script outputs, `BuildState`: a map from a package id
 * and a kind to the `BuildOutput` recorded for them.  It is seeded from the
 * overrides of the build configuration (`BuildState::new`) and then filled in
 * as build scripts finish (`BuildState::insert`).
 */
module BuildStates {
  import opened Wrappers
  import opened Kinds
  import opened BuildOutputs

  /** What the registry needs to know of a package: its id and its `links` name. */
  datatype Package = Package(id: PackageId, links: Option<string>)

  /** Outputs given in the configuration instead of running scripts, by `links` name. */
  datatype TargetConfig = TargetConfig(overrides: map<string, BuildOutput>)

  /** The host and target configurations of a build. */
  datatype BuildConfig = BuildConfig(host: TargetConfig, target: TargetConfig)

  type BuildMap = map<(PackageId, Kind), BuildOutput>

  /** `i` is the last position of `packages` that declares `links` name `name`. */
  predicate LastDeclaring(packages: seq<Package>, name: string, i: int) {
    0 <= i < |packages| && packages[i].links == Some(name)
    && forall j :: i < j < |packages| ==> packages[j].links != Some(name)
  }

  /**
   * The `sources` map of `BuildState::new`: each `links` name declared in
   * `packages` to the id of the package that declares it, the last one when
   * several do.
   */
  function LinksSources(packages: seq<Package>): map<string, PackageId> {
    if packages == [] then map[]
    else
      var p := packages[|packages| - 1];
      var m := LinksSources(packages[..|packages| - 1]);
      if p.links.Some? then m[p.links.value := p.id] else m
  }

  /** A name is a key of `sources` exactly when some package declares it. */
  lemma {:induction false} LinksSourcesNames(packages: seq<Package>, name: string)
    ensures name in LinksSources(packages) <==> exists i :: 0 <= i < |packages| && packages[i].links == Some(name)
  {
    if packages != [] {
      var init := packages[..|packages| - 1];
      LinksSourcesNames(init, name);
      assert forall i :: 0 <= i < |init| ==> init[i] == packages[i];
      if exists i :: 0 <= i < |packages| && packages[i].links == Some(name) {
        var i :| 0 <= i < |packages| && packages[i].links == Some(name);
        if i < |init| {
          assert init[i].links == Some(name);
        }
      }
    }
  }

  /** The id a name maps to is that of the last package declaring it. */
  lemma {:induction false} LinksSourcesLastWins(packages: seq<Package>, name: string)
    requires name in LinksSources(packages)
    ensures exists i :: LastDeclaring(packages, name, i) && packages[i].id == LinksSources(packages)[name]
  {
    var init := packages[..|packages| - 1];
    var p := packages[|packages| - 1];
    if p.links == Some(name) {
      assert LastDeclaring(packages, name, |packages| - 1);
    } else {
      LinksSourcesLastWins(init, name);
      var i :| LastDeclaring(init, name, i) && init[i].id == LinksSources(init)[name];
      assert packages[i] == init[i];
      assert LastDeclaring(packages, name, i);
    }
  }

  /**
   * The registry after `insert(id, req, output)` on `m`: exactly the slots of
   * `id` for the kinds `req` includes hold `output`, every other slot is as
   * it was.
   */
  function Inserted(m: BuildMap, id: PackageId, req: Platform, output: BuildOutput): (r: BuildMap)
    ensures forall key :: key in r <==> key in m || (key.0 == id && Includes(req, key.1))
    ensures forall key :: key in r ==> r[key] == if key.0 == id && Includes(req, key.1) then output else m[key]
  {
    match req
    case Target => m[(id, Kind.Target) := output]
    case Plugin => m[(id, Host) := output]
    case PluginAndTarget =>
      var r := m[(id, Host) := output][(id, Kind.Target) := output];
      assert forall key: (PackageId, Kind) :: key.0 == id ==> key in r && r[key] == output by {
        forall key: (PackageId, Kind) | key.0 == id
          ensures key in r && r[key] == output
        {
          SlotsOf(id, key);
        }
      }
      r
  }

  /** A package has two slots, one per kind. */
  lemma SlotsOf(id: PackageId, key: (PackageId, Kind))
    requires key.0 == id
    ensures key == (id, Host) || key == (id, Kind.Target)
  {
    var (i, kind) := key;
    if kind == Host {
      assert key == (id, Host);
    } else {
      assert key == (id, Kind.Target);
    }
  }

  /** The registry, `BuildState`. */
  class BuildState {
    var outputs: BuildMap

    /**
     * `BuildState::new`: every override whose name is the `links` name of
     * some package lands in that package's slot for the kind of its
     * configuration (host overrides in `Host`, target overrides in `Target`);
     * overrides for unknown names are dropped and nothing else is recorded.
     */
    constructor (config: BuildConfig, packages: seq<Package>)
      ensures var sources := LinksSources(packages);
        (forall key :: key in outputs ==>
           exists name :: name in sources && sources[name] == key.0
             && (key.1 == Host ==> name in config.host.overrides && outputs[key] == config.host.overrides[name])
             && (key.1 == Kind.Target ==> name in config.target.overrides && outputs[key] == config.target.overrides[name]))
        && (forall name :: name in sources && name in config.host.overrides ==> (sources[name], Host) in outputs)
        && (forall name :: name in sources && name in config.target.overrides ==> (sources[name], Kind.Target) in outputs)
    {
      var sources: map<string, PackageId> := map[];
      var i := 0;
      while i < |packages|
        invariant 0 <= i <= |packages|
        invariant sources == LinksSources(packages[..i])
      {
        var package := packages[i];
        assert packages[..i + 1][..i] == packages[..i];
        if package.links.Some? {
          sources := sources[package.links.value := package.id];
        }
        i := i + 1;
      }
      assert packages[..i] == packages;
      var m: BuildMap := map[];
      m := AddOverrides(m, sources, config.host.overrides, Host);
      m := AddOverrides(m, sources, config.target.overrides, Kind.Target);
      outputs := m;
    }

    /**
     * `BuildState::insert`: records the output of the build script of `id`
     * in the slots its requirement covers.
     */
    method Insert(id: PackageId, req: Platform, output: BuildOutput)
      modifies this
      ensures outputs == Inserted(old(outputs), id, req, output)
    {
      match req
      case Target =>
        outputs := outputs[(id, Kind.Target) := output];
      case Plugin =>
        outputs := outputs[(id, Host) := output];
      case PluginAndTarget =>
        outputs := outputs[(id, Host) := output];
        outputs := outputs[(id, Kind.Target) := output];
    }
  }

  /** Some name of `names` that `sources` knows has an override naming package `id`. */
  predicate Overridden(sources: map<string, PackageId>, overrides: map<string, BuildOutput>,
                       names: set<string>, id: PackageId) {
    exists name :: name in names && name in sources && name in overrides && sources[name] == id
  }

  /**
   * One half of the override loop of `BuildState::new`: the overrides of one
   * configuration, in no particular order, each stored under `(id, kind)`
   * when `sources` knows its name, overwriting what the slot held.  Slots of
   * the other kind, and slots of this kind that no override names, are
   * untouched.
   */
  method AddOverrides(m: BuildMap, sources: map<string, PackageId>, overrides: map<string, BuildOutput>,
                      kind: Kind) returns (r: BuildMap)
    ensures forall key :: key in r && key.1 != kind ==> key in m && r[key] == m[key]
    ensures forall key :: key in m ==> key in r
    ensures forall key :: key in r && key.1 == kind && Overridden(sources, overrides, overrides.Keys, key.0) ==>
              exists name :: name in sources && name in overrides && sources[name] == key.0
                && r[key] == overrides[name]
    ensures forall key :: key in r && key.1 == kind && !Overridden(sources, overrides, overrides.Keys, key.0) ==>
              key in m && r[key] == m[key]
    ensures forall name :: name in sources && name in overrides ==> (sources[name], kind) in r
  {
    r := m;
    var todo := overrides.Keys;
    while todo != {}
      invariant todo <= overrides.Keys
      invariant forall key :: key in r && key.1 != kind ==> key in m && r[key] == m[key]
      invariant forall key :: key in m ==> key in r
      invariant forall key :: key in r && key.1 == kind && Overridden(sources, overrides, overrides.Keys - todo, key.0) ==>
                  exists name :: name in sources && name in overrides && name !in todo && sources[name] == key.0
                    && r[key] == overrides[name]
      invariant forall key :: key in r && key.1 == kind && !Overridden(sources, overrides, overrides.Keys - todo, key.0) ==>
                  key in m && r[key] == m[key]
      invariant forall name :: name in sources && name in overrides && name !in todo ==> (sources[name], kind) in r
      decreases todo
    {
      var name :| name in todo;
      ghost var before := overrides.Keys - todo;
      if name in sources {
        r := r[(sources[name], kind) := overrides[name]];
      }
      todo := todo - {name};
      assert overrides.Keys - todo == before + {name};
    }
    assert overrides.Keys - todo == overrides.Keys;
  }

  /** Recording the same output twice is recording it once. */
  lemma InsertedIdempotent(m: BuildMap, id: PackageId, req: Platform, output: BuildOutput)
    ensures Inserted(Inserted(m, id, req, output), id, req, output) == Inserted(m, id, req, output)
  {
    var once := Inserted(m, id, req, output);
    var twice := Inserted(once, id, req, output);
    assert forall key :: key in twice <==> key in once;
    assert forall key :: key in twice ==> twice[key] == once[key];
  }

  /** A `PluginAndTarget` output is a `Plugin` output that is also a `Target` output. */
  lemma InsertedBoth(m: BuildMap, id: PackageId, output: BuildOutput)
    ensures Inserted(m, id, PluginAndTarget, output)
            == Inserted(Inserted(m, id, Plugin, output), id, Platform.Target, output)
  {
    var both := Inserted(m, id, PluginAndTarget, output);
    var seq2 := Inserted(Inserted(m, id, Plugin, output), id, Platform.Target, output);
    forall key: (PackageId, Kind) | key.0 == id
      ensures key in both && key in seq2 && both[key] == seq2[key]
    {
      SlotsOf(id, key);
    }
    assert forall key :: key in both <==> key in seq2;
  }

  /**
   * What the dirty and the fresh work of `prepare` do with a script's
   * standard output, whether just produced or read back from the cache:
   * parse it and record the result under the script's package and
   * requirement.  A parse error leaves the registry as it was.
   */
  method RecordOutput(state: BuildState, id: PackageId, req: Platform, pkgName: string, stdout: string)
    returns (r: Result<BuildOutput, ParseError>)
    modifies state
    ensures r == ParseText(stdout, pkgName)
    ensures r.Ok? ==> state.outputs == Inserted(old(state.outputs), id, req, r.value)
    ensures r.Err? ==> state.outputs == old(state.outputs)
  {
    r := Parse(stdout, pkgName);
    if r.Ok? {
      state.Insert(id, req, r.value);
    }
  }
}
