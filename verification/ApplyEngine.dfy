/** Applying a cluster again and again: what the manifest and the inventory keep from one apply to the next. */
module ApplyEngine {
  import opened Results
  import opened Inventory
  import opened OsImages
  import OsImageBuilder

  /** The files an apply leaves for the next one. */
  datatype Files = Files(manifest: Option<seq<VmDoc>>, inventory: Option<seq<Item>>)

  datatype ApplyError =
    | MasterDownscale
    | PostgresScaled
    | BuildFailed(image: ImageError)
    | MixedSystems
    | ConfigurationFailed
    | InventoryFailed(inventory: InventoryError)

  /**
   * What one apply is given: the merged input, and what the parts outside this model answer — `family`
   * the system family of an image, `mappings` the feature mappings of the configuration if it can be
   * made, `ips` the hosts found for a component.
   */
  datatype Input = Input(source: Source, vms: seq<VmDoc>, components: seq<OsImages.Component>, family: string -> string,
                         mappings: Option<seq<RolesMapping>>, ips: string -> seq<Host>, skipConfig: bool)

  function Plain(cs: seq<OsImages.Component>): (r: seq<Inventory.Component>)
    ensures |r| == |cs| && forall i :: 0 <= i < |cs| ==> r[i] == Inventory.Component(cs[i].key, cs[i].count)
  {
    seq(|cs|, i requires 0 <= i < |cs| => Inventory.Component(cs[i].key, cs[i].count))
  }

  /** The count of a component, if the cluster has it. */
  function CountOf(cs: seq<OsImages.Component>, key: string): (r: Option<int>)
    ensures r.Some? ==> exists i :: 0 <= i < |cs| && cs[i].key == key && cs[i].count == r.value
    ensures r.None? ==> forall i :: 0 <= i < |cs| ==> cs[i].key != key
  {
    if cs == [] then None else if cs[0].key == key then Some(cs[0].count) else CountOf(cs[1..], key)
  }

  /** The number of hosts of a group; none if the group is not in the inventory. */
  function GroupSize(items: seq<Item>, role: string): Option<nat> {
    if items == [] then None else if items[0].role == role then Some(|items[0].hosts|) else GroupSize(items[1..], role)
  }

  const MASTER := "kubernetes_master"
  const POSTGRES := "postgresql"
  const SINGLE := "single_machine"

  predicate MasterShrinks(inventory: Option<seq<Item>>, cs: seq<OsImages.Component>) {
    var single := CountOf(cs, SINGLE);
    && !(single.Some? && single.value > 0)
    && inventory.Some?
    && var before, after := GroupSize(inventory.value, MASTER), CountOf(cs, MASTER);
       before.Some? && after.Some? && before.value > after.value
  }

  predicate PostgresChanges(inventory: Option<seq<Item>>, cs: seq<OsImages.Component>) {
    && inventory.Some?
    && var before, after := GroupSize(inventory.value, POSTGRES), CountOf(cs, POSTGRES);
       before.Some? && after.Some? && before.value != after.value
  }

  predicate OneFamily(family: string -> string, vms: seq<VmDoc>) {
    forall i, j :: 0 <= i < |vms| && 0 <= j < |vms| ==> family(vms[i].image) == family(vms[j].image)
  }

  /** One apply: the files it leaves, and whether it completed. */
  function Step(s: Files, input: Input): (Files, Outcome<ApplyError>) {
    if MasterShrinks(s.inventory, input.components) then (s, Fail(MasterDownscale))
    else if PostgresChanges(s.inventory, input.components) then (s, Fail(PostgresScaled))
    else
      match Build(input.source, input.vms, input.components, s.manifest)
      case Failure(e) => (s, Fail(BuildFailed(e)))
      case Success(b) =>
        var early := s.(manifest := Some(b.vms + b.docs));
        if !OneFamily(input.family, b.docs) then (early, Fail(MixedSystems))
        else if input.mappings.None? then (early, Fail(ConfigurationFailed))
        else
          var late := s.(manifest := Some(b.docs));
          if input.skipConfig then (late, Pass)
          else
            match InventoryOf(Plain(input.components), input.ips, input.mappings.value)
            case Failure(e) => (late, Fail(InventoryFailed(e)))
            case Success(items) => (late.(inventory := Some(items)), Pass)
  }

  // ---------- the engine as it runs ----------

  method FindCount(cs: seq<OsImages.Component>, key: string) returns (r: Option<int>)
    ensures r == CountOf(cs, key)
  {
    assert cs[0..] == cs;
    for i := 0 to |cs|
      invariant CountOf(cs, key) == CountOf(cs[i..], key)
    {
      assert cs[i..][1..] == cs[i + 1..];
      if cs[i].key == key {
        return Some(cs[i].count);
      }
    }
    r := None;
  }

  class Engine {
    var manifest: Option<seq<VmDoc>>
    var inventory: Option<seq<Item>>

    constructor ()
      ensures Saved() == Files(None, None)
    {
      manifest, inventory := None, None;
    }

    function Saved(): Files
      reads this
    {
      Files(manifest, inventory)
    }

    /** `assert_no_master_downscale` */
    method AssertNoMasterDownscale(cs: seq<OsImages.Component>) returns (r: Outcome<ApplyError>)
      ensures r == if MasterShrinks(inventory, cs) then Fail(MasterDownscale) else Pass
    {
      var single := FindCount(cs, SINGLE);
      if single.Some? && single.value > 0 {
        return Pass;
      }
      if inventory.Some? {
        var before := GroupSize(inventory.value, MASTER);
        var after := FindCount(cs, MASTER);
        if before.Some? && after.Some? {
          if before.value > after.value {
            return Fail(MasterDownscale);
          }
        }
      }
      r := Pass;
    }

    /** `assert_no_postgres_nodes_number_change` */
    method AssertNoPostgresChange(cs: seq<OsImages.Component>) returns (r: Outcome<ApplyError>)
      ensures r == if PostgresChanges(inventory, cs) then Fail(PostgresScaled) else Pass
    {
      if inventory.Some? {
        var before := GroupSize(inventory.value, POSTGRES);
        var after := FindCount(cs, POSTGRES);
        if before.Some? && after.Some? && before.value != after.value {
          return Fail(PostgresScaled);
        }
      }
      r := Pass;
    }

    /** `assert_consistent_os_family`: no two of the built machines differ. */
    method AssertOneFamily(family: string -> string, vms: seq<VmDoc>) returns (r: Outcome<ApplyError>)
      ensures r == if OneFamily(family, vms) then Pass else Fail(MixedSystems)
    {
      for i := 0 to |vms|
        invariant forall j :: 0 <= j < i ==> family(vms[j].image) == family(vms[0].image)
      {
        if family(vms[i].image) != family(vms[0].image) {
          return Fail(MixedSystems);
        }
      }
      r := Pass;
    }

    /** `apply`; the machine documents of the input are updated in place. */
    method Apply(input: Input, docs: seq<OsImageBuilder.MachineDocument>) returns (r: Outcome<ApplyError>)
      requires OsImageBuilder.Separate(docs) && OsImageBuilder.View(docs) == input.vms
      modifies this, docs
      ensures (Saved(), r) == Step(old(Saved()), input)
    {
      hide MasterShrinks, PostgresChanges, OneFamily, InventoryOf, BuildFirst;
      var masters := AssertNoMasterDownscale(input.components);
      if masters.Fail? {
        return masters;
      }
      var postgres := AssertNoPostgresChange(input.components);
      if postgres.Fail? {
        return postgres;
      }
      var built := OsImageBuilder.Run(input.source, docs, input.components, manifest);
      if built.Failure? {
        return Fail(BuildFailed(built.error));
      }
      manifest := Some(OsImageBuilder.View(docs) + built.value);
      var family := AssertOneFamily(input.family, built.value);
      if family.Fail? {
        return family;
      }
      if input.mappings.None? {
        return Fail(ConfigurationFailed);
      }
      manifest := Some(built.value);
      if !input.skipConfig {
        var items := GetInventory(Plain(input.components), input.ips, input.mappings.value);
        if items.Failure? {
          return Fail(InventoryFailed(items.error));
        }
        inventory := Some(items.value);
      }
      r := Pass;
    }
  }
}
