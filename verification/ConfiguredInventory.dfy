/** The configuration that comes out is one the inventory can be made from. */
module ConfiguredInventory {
  import opened Results
  import opened ConfigurationAppender
  import Inventory

  /** The feature mappings among the output documents, as the inventory looks them up. */
  function MappingsIn(input: seq<Config>, out: seq<Entry>): seq<map<string, seq<string>>> {
    if out == [] then []
    else
      var e := out[|out| - 1];
      MappingsIn(input, out[..|out| - 1])
      + if (e.Given? ==> e.at < |input|) && ConfigOf(input, e).kind == MAPPING then [ConfigOf(input, e).mapping] else []
  }

  lemma {:induction false} OnlyFirst(input: seq<Config>, out: seq<Entry>)
    requires Fits(input, out) && out != []
    requires forall k :: 0 <= k < |out| ==> (ConfigOf(input, out[k]).kind == MAPPING <==> k == 0)
    ensures MappingsIn(input, out) == [ConfigOf(input, out[0]).mapping]
  {
    if |out| > 1 {
      OnlyFirst(input, out[..|out| - 1]);
    } else {
      assert MappingsIn(input, out[..0]) == [];
    }
  }

  function Plain(cs: seq<Component>): (r: seq<Inventory.Component>)
    ensures |r| == |cs| && forall i :: 0 <= i < |cs| ==> r[i] == Inventory.Component(cs[i].key, cs[i].count)
  {
    seq(|cs|, i requires 0 <= i < |cs| => Inventory.Component(cs[i].key, cs[i].count))
  }

  /**
   * After a successful configuration step without a feature called feature-mapping, the inventory finds
   * its one feature mapping, the one the step itself used, and every component with hosts in it.
   */
  lemma InventoryCanBeMade(src: Source, input: seq<Config>, cs: seq<Component>, ips: string -> seq<Inventory.Host>)
    requires Honest(src) && Append(src, input, cs).Success? && !ForFeature(src, input, cs, |cs|, MAPPING)
    ensures MappingsIn(input, Append(src, input, cs).value) == [Mapping(src, input)]
    ensures Inventory.InventoryOf(Plain(cs), ips, MappingsIn(input, Append(src, input, cs).value)).Success?
  {
    hide ForFeature, AddComponent, RequiredEntry, Shaped;
    var out := Append(src, input, cs).value;
    RequiredOnce(src, input, cs);
    OnlyFirst(input, out);
    AppendShaped(src, input, cs, |cs|);
    RequiredFirst(src, input, out);
    Inventory.CollectedSucceeds(Plain(cs), ips, [Mapping(src, input)], |cs|);
  }

  lemma RequiredFirst(src: Source, input: seq<Config>, out: seq<Entry>)
    requires Shaped(src, input, out)
    ensures |out| >= 3 && out[0] == RequiredEntry(src, input, MAPPING)
  {
    assert out[0] == Required(src, input)[0];
  }
}
