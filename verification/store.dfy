/**
 * The Chef server as the engine sees it through its client: data bags of
 * items and nodes, held in memory, with a ghost log of every write.
 */
module Store {
  import opened Utils

  /** The attributes of a data bag item, as a Hash in insertion order. */
  type Attrs = Entries

  /** A node as the server stores it. */
  datatype Node = Node(environment: string, runList: seq<Json>)

  /** One write request sent to the server. */
  datatype Write =
    | BagCreated(bag: string)
    | ItemSaved(bag: string, id: string, attrs: Attrs)
    | ItemCreated(bag: string, id: string, attrs: Attrs)
    | NodeSaved(name: string, runList: seq<Json>)

  class RemoteStore {
    /** Data bag name to item id to item attributes. */
    var bags: map<string, map<string, Attrs>>
    /** Node name to node. */
    var nodes: map<string, Node>
    /** Every write performed so far, oldest first. */
    ghost var writes: seq<Write>

    constructor (bags: map<string, map<string, Attrs>>, nodes: map<string, Node>)
      ensures this.bags == bags && this.nodes == nodes && writes == []
    {
      this.bags := bags;
      this.nodes := nodes;
      writes := [];
    }

    /** `ridley.data_bag.create(:name => bag)`. */
    method CreateBag(bag: string)
      requires bag !in bags
      modifies this
      ensures bags == old(bags)[bag := map[]] && nodes == old(nodes)
      ensures writes == old(writes) + [BagCreated(bag)]
    {
      bags := bags[bag := map[]];
      writes := writes + [BagCreated(bag)];
    }

    /** `item.save` after its attributes were replaced by `attrs`. */
    method SaveItem(bag: string, id: string, attrs: Attrs)
      requires bag in bags
      modifies this
      ensures bags == old(bags)[bag := old(bags)[bag][id := attrs]] && nodes == old(nodes)
      ensures writes == old(writes) + [ItemSaved(bag, id, attrs)]
    {
      bags := bags[bag := bags[bag][id := attrs]];
      writes := writes + [ItemSaved(bag, id, attrs)];
    }

    /** `data_bag.item.create(attrs)`; the new item's id is `attrs['id']`, here `id`. */
    method CreateItem(bag: string, id: string, attrs: Attrs)
      requires bag in bags
      modifies this
      ensures bags == old(bags)[bag := old(bags)[bag][id := attrs]] && nodes == old(nodes)
      ensures writes == old(writes) + [ItemCreated(bag, id, attrs)]
    {
      bags := bags[bag := bags[bag][id := attrs]];
      writes := writes + [ItemCreated(bag, id, attrs)];
    }

    /** `node.run_list = runList; node.save`. */
    method SaveNode(name: string, runList: seq<Json>)
      requires name in nodes
      modifies this
      ensures nodes == old(nodes)[name := old(nodes)[name].(runList := runList)] && bags == old(bags)
      ensures writes == old(writes) + [NodeSaved(name, runList)]
    {
      nodes := nodes[name := nodes[name].(runList := runList)];
      writes := writes + [NodeSaved(name, runList)];
    }
  }
}
