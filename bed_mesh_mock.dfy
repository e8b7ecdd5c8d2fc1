/** The bed-mesh profile store of the Moonraker client mock, driven by the
    G-code commands a test sends it: profiles saved by name, one active
    mesh, and the LOAD, REMOVE, CALIBRATE PROFILE= and CLEAR commands.

    Probed heights are kept as opaque integers; the random surface a
    calibration generates is a parameter. */
module BedMeshMock {
  import opened Common

  /** A mesh: its profile name, its probe counts and its probed heights,
      one row per probed line. */
  datatype Mesh = Mesh(name: string, xCount: nat, yCount: nat, probed: seq<seq<int>>)

  /** The mock's mesh state: the stored profiles and the active mesh, if any. */
  datatype MeshStore = MeshStore(profiles: map<string, Mesh>, active: Option<Mesh>)

  datatype Command =
    | Load(name: string)
    | Remove(name: string)
    | Calibrate(name: string)
    | Clear
    | Unhandled

  const LoadPrefix: string := "BED_MESH_PROFILE LOAD="
  const RemovePrefix: string := "BED_MESH_PROFILE REMOVE="
  const CalibratePrefix: string := "BED_MESH_CALIBRATE PROFILE="
  const ClearCommand: string := "BED_MESH_CLEAR"

  /** A grid of `y` rows of `x` heights each. */
  predicate IsGrid(g: seq<seq<int>>, x: nat, y: nat)
  {
    |g| == y && forall row :: row in g ==> |row| == x
  }

  /** The mesh a probe run produces under `name`: its counts are the grid's
      own dimensions. */
  function MeshOf(name: string, grid: seq<seq<int>>): (m: Mesh)
    ensures m.name == name && m.probed == grid
    ensures m.yCount == |grid| && (grid != [] ==> m.xCount == |grid[0]|)
  {
    if grid == [] then Mesh(name, 0, 0, grid) else Mesh(name, |grid[0]|, |grid|, grid)
  }

  /** Every stored profile carries its own name. */
  predicate Valid(st: MeshStore)
  {
    forall k :: k in st.profiles ==> st.profiles[k].name == k
  }

  /** The probe count per axis of the mesh the mock generates. */
  const MeshPoints: nat := 7

  /** The generated mesh's heights: MeshPoints rows of MeshPoints heights,
      each drawn from the surface `height` (the mock's random generator). */
  function SampleGrid(height: (nat, nat) -> int): (g: seq<seq<int>>)
    ensures IsGrid(g, MeshPoints, MeshPoints)
    ensures forall y, x :: 0 <= y < MeshPoints && 0 <= x < MeshPoints ==> g[y][x] == height(y, x)
  {
    seq(MeshPoints, y requires 0 <= y => seq(MeshPoints, x requires 0 <= x => height(y, x)))
  }

  /** The state after construction: a default and an adaptive profile, with
      the default one active. */
  function Initial(defaultHeight: (nat, nat) -> int, adaptiveGrid: seq<seq<int>>): MeshStore
  {
    var grid := SampleGrid(defaultHeight);
    MeshStore(map["default" := MeshOf("default", grid), "adaptive" := MeshOf("adaptive", adaptiveGrid)],
              Some(MeshOf("default", grid)))
  }

  /** The command a script line asks for; the profile name is the rest of
      the line after `=`. Any other line leaves the mesh state alone. */
  function Parse(line: string): Command
  {
    if line == ClearCommand then Clear
    else if IsPrefix(LoadPrefix, line) then Load(line[|LoadPrefix|..])
    else if IsPrefix(RemovePrefix, line) then Remove(line[|RemovePrefix|..])
    else if IsPrefix(CalibratePrefix, line) then Calibrate(line[|CalibratePrefix|..])
    else Unhandled
  }

  /** The script line for a command. */
  function Render(c: Command): string
    requires !c.Unhandled?
  {
    match c
    case Load(n) => LoadPrefix + n
    case Remove(n) => RemovePrefix + n
    case Calibrate(n) => CalibratePrefix + n
    case Clear => ClearCommand
  }

  /** A prefix followed by a name is recognised, and the name is what follows. */
  lemma PrefixThenName(p: string, n: string)
    ensures IsPrefix(p, p + n) && (p + n)[|p|..] == n
  {
    assert (p + n)[..|p|] == p;
  }

  /** A line that starts with one prefix does not start with another that
      differs from it at position i. */
  lemma PrefixDiffers(p: string, q: string, n: string, i: nat)
    requires i < |p| && i < |q| && p[i] != q[i]
    ensures !IsPrefix(p, q + n)
  {
    if |p| <= |q + n| {
      assert (q + n)[..|p|][i] == q[i];
    }
  }

  /** Parsing a rendered command gives the command back. */
  lemma ParseRender(c: Command)
    requires !c.Unhandled?
    ensures Parse(Render(c)) == c
  {
    match c
    case Load(n) =>
      PrefixThenName(LoadPrefix, n);
    case Remove(n) =>
      PrefixThenName(RemovePrefix, n);
      PrefixDiffers(LoadPrefix, RemovePrefix, n, 17);
    case Calibrate(n) =>
      PrefixThenName(CalibratePrefix, n);
      PrefixDiffers(LoadPrefix, CalibratePrefix, n, 9);
      PrefixDiffers(RemovePrefix, CalibratePrefix, n, 9);
    case Clear =>
  }

  /** Every line that parses to a command is that command's rendering. */
  lemma RenderParse(line: string)
    requires !Parse(line).Unhandled?
    ensures Render(Parse(line)) == line
  {
    if IsPrefix(LoadPrefix, line) {
      assert LoadPrefix + line[|LoadPrefix|..] == line[..|LoadPrefix|] + line[|LoadPrefix|..];
    }
    if IsPrefix(RemovePrefix, line) {
      assert RemovePrefix + line[|RemovePrefix|..] == line[..|RemovePrefix|] + line[|RemovePrefix|..];
    }
    if IsPrefix(CalibratePrefix, line) {
      assert CalibratePrefix + line[|CalibratePrefix|..] == line[..|CalibratePrefix|] + line[|CalibratePrefix|..];
    }
  }

  /** What a command does to the mesh state; `grid` is the surface a
      calibration probes. */
  function Apply(st: MeshStore, c: Command, grid: seq<seq<int>>): MeshStore
  {
    match c
    case Load(n) => if n in st.profiles then st.(active := Some(st.profiles[n])) else st
    case Remove(n) => st.(profiles := st.profiles - {n})
    case Calibrate(n) => MeshStore(st.profiles[n := MeshOf(n, grid)], Some(MeshOf(n, grid)))
    case Clear => st.(active := None)
    case Unhandled => st
  }

  /** gcode_script on one line. */
  function Run(st: MeshStore, line: string, grid: seq<seq<int>>): MeshStore
  {
    Apply(st, Parse(line), grid)
  }

  /** A fresh mock has an active 7x7 mesh with probed data, and both the
      default and the adaptive profile. */
  lemma InitialState(defaultHeight: (nat, nat) -> int, adaptiveGrid: seq<seq<int>>)
    ensures var st := Initial(defaultHeight, adaptiveGrid);
            Valid(st) && st.active.Some? && st.active.value.probed != []
            && st.active.value.xCount == 7 && st.active.value.yCount == 7
            && {"default", "adaptive"} <= st.profiles.Keys && |st.profiles.Keys| >= 2
  {
    var st := Initial(defaultHeight, adaptiveGrid);
    var grid := SampleGrid(defaultHeight);
    assert st.profiles.Keys == {"default", "adaptive"};
    assert "default" != "adaptive";
    assert grid[0] in grid;
    assert |grid[0]| == 7;
  }

  /** Every command keeps each stored profile under its own name. */
  lemma ApplyValid(st: MeshStore, c: Command, grid: seq<seq<int>>)
    requires Valid(st)
    ensures Valid(Apply(st, c, grid))
  {
  }

  /** LOAD of a stored profile makes exactly that profile's data and name
      active, and touches no profile. */
  lemma LoadStored(st: MeshStore, n: string, grid: seq<seq<int>>)
    requires Valid(st) && n in st.profiles
    ensures var st' := Apply(st, Load(n), grid);
            st'.profiles == st.profiles && st'.active == Some(st.profiles[n]) && st'.active.value.name == n
  {
  }

  /** Loading one stored profile, then another, then the first again
      restores the first profile's data. */
  lemma LoadRestores(st: MeshStore, a: string, b: string, grid: seq<seq<int>>)
    requires a in st.profiles
    ensures Apply(Apply(Apply(st, Load(a), grid), Load(b), grid), Load(a), grid).active == Some(st.profiles[a])
  {
  }

  /** CALIBRATE PROFILE=p makes the probed mesh active under p and stores
      it, so that after any LOAD a later LOAD of p brings back the same
      data. */
  lemma CalibrateThenLoad(st: MeshStore, p: string, q: string, grid: seq<seq<int>>, other: seq<seq<int>>)
    ensures var st1 := Apply(st, Calibrate(p), grid);
            st1.active == Some(MeshOf(p, grid)) && st1.profiles[p] == MeshOf(p, grid)
    ensures Apply(Apply(Apply(st, Calibrate(p), grid), Load(q), other), Load(p), other).active == Some(MeshOf(p, grid))
  {
  }

  /** CALIBRATE under a new name adds exactly that one profile. */
  lemma CalibrateNewAddsOne(st: MeshStore, p: string, grid: seq<seq<int>>)
    requires p !in st.profiles
    ensures var st' := Apply(st, Calibrate(p), grid);
            st'.profiles.Keys == st.profiles.Keys + {p} && |st'.profiles.Keys| == |st.profiles.Keys| + 1
  {
  }

  /** REMOVE takes that name out of the profile list and keeps every other
      profile and the active mesh. */
  lemma RemoveDeletes(st: MeshStore, n: string, grid: seq<seq<int>>)
    ensures var st' := Apply(st, Remove(n), grid);
            st'.profiles.Keys == st.profiles.Keys - {n} && st'.active == st.active
            && forall k :: k in st'.profiles ==> st'.profiles[k] == st.profiles[k]
  {
  }

  /** LOAD or REMOVE of a name that is not stored changes nothing. */
  lemma MissingNameChangesNothing(st: MeshStore, n: string, grid: seq<seq<int>>)
    requires n !in st.profiles
    ensures Apply(st, Load(n), grid) == st && Apply(st, Remove(n), grid) == st
  {
    assert st.profiles - {n} == st.profiles;
  }

  /** BED_MESH_CLEAR leaves no active mesh and keeps the profiles. */
  lemma ClearRemovesMesh(st: MeshStore, grid: seq<seq<int>>)
    ensures var st' := Run(st, ClearCommand, grid);
            st'.active.None? && st'.profiles == st.profiles
  {
  }

  /** The mock's mesh fields. */
  class BedMeshMock {
    var profiles: map<string, Mesh>
    var active: Option<Mesh>

    function State(): MeshStore
      reads this
    {
      MeshStore(profiles, active)
    }

    /** The generated default surface and adaptive mesh are parameters. */
    constructor(defaultHeight: (nat, nat) -> int, adaptiveGrid: seq<seq<int>>)
      ensures State() == Initial(defaultHeight, adaptiveGrid)
    {
      var grid := SampleGrid(defaultHeight);
      profiles := map["default" := MeshOf("default", grid), "adaptive" := MeshOf("adaptive", adaptiveGrid)];
      active := Some(MeshOf("default", grid));
    }

    predicate HasBedMesh()
      reads this
    {
      active.Some?
    }

    function ProfileNames(): set<string>
      reads this
    {
      profiles.Keys
    }

    /** gcode_script for the bed-mesh commands; `grid` is the surface a
        calibration probes. */
    method GcodeScript(line: string, grid: seq<seq<int>>) returns (r: int)
      modifies this
      ensures r == 0 && State() == Run(old(State()), line, grid)
    {
      var c := Parse(line);
      match c {
        case Load(n) =>
          if n in profiles {
            active := Some(profiles[n]);
          }
        case Remove(n) =>
          profiles := profiles - {n};
        case Calibrate(n) =>
          var m := MeshOf(n, grid);
          profiles := profiles[n := m];
          active := Some(m);
        case Clear =>
          active := None;
        case Unhandled =>
      }
      r := 0;
    }
  }
}
