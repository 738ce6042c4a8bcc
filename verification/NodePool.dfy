/**
 * The generation-owned pool of client runtimes, at the grain of its locks and
 * awaits.  Every operation is a task; a step runs one task from one
 * suspension point to the next, so a run is an arbitrary interleaving of
 * activations, stops, lazy starts and stream opens.
 */
module NodePool {
  import opened Common

  type EntryId = nat
  type RuntimeId = nat
  type TaskId = nat

  datatype ResolvedNode = ResolvedNode(id: string, alias: string)

  datatype PoolError =
    Empty | DuplicateNode | MissingDefault | UnknownNode | Superseded | StartFailed | StreamFailed

  datatype PoolState = PoolState(
    generation: nat, defaultNode: string, nodes: map<string, EntryId>, aliases: map<string, string>)

  const EmptyState := PoolState(0, "", map[], map[])

  // ---------------------------------------------------------------- preparing a profile

  function Ids(nodes: seq<ResolvedNode>): seq<string> {
    seq(|nodes|, i requires 0 <= i < |nodes| => nodes[i].id)
  }

  function Aliases(nodes: seq<ResolvedNode>): seq<string> {
    seq(|nodes|, i requires 0 <= i < |nodes| => nodes[i].alias)
  }

  function Consecutive(first: EntryId, count: nat): seq<EntryId> {
    seq(count, i => first + i)
  }

  ghost predicate Distinct(names: seq<string>) {
    && (forall i | 0 <= i < |names| :: names[i] != "")
    && (forall i, j | 0 <= i < j < |names| :: names[i] != names[j])
  }

  /** Every id and alias is non-empty, and neither repeats among its own kind. */
  ghost predicate WellNamed(nodes: seq<ResolvedNode>) {
    Distinct(Ids(nodes)) && Distinct(Aliases(nodes))
  }

  /** The map sends each name to the value at the same position, and has no other key. */
  ghost predicate Indexes<V>(m: map<string, V>, names: seq<string>, values: seq<V>) {
    && |names| == |values|
    && (forall name :: name in m <==> name in names)
    && (forall i | 0 <= i < |names| :: m[names[i]] == values[i])
  }

  /** Node `i` of the profile owns entry `first + i`, and its alias leads to its id. */
  ghost predicate Describes(
      entries: map<string, EntryId>, aliases: map<string, string>, nodes: seq<ResolvedNode>, first: EntryId)
  {
    && Indexes<EntryId>(entries, Ids(nodes), Consecutive(first, |nodes|))
    && Indexes(aliases, Aliases(nodes), Ids(nodes))
  }

  /** A reference names a node by its id, or, if no node has that id, by its alias. */
  ghost predicate NamesNode(nodes: seq<ResolvedNode>, reference: string, id: string) {
    if reference in Ids(nodes) then id == reference
    else exists i :: 0 <= i < |nodes| && nodes[i].alias == reference && nodes[i].id == id
  }

  lemma IndexSnoc<V>(m: map<string, V>, names: seq<string>, values: seq<V>, name: string, value: V)
    requires Distinct(names) && Indexes(m, names, values)
    ensures Distinct(names + [name]) <==> name != "" && name !in m
    ensures name !in m ==> Indexes(m[name := value], names + [name], values + [value])
  {
    var more := names + [name];
    assert forall i | 0 <= i < |names| :: more[i] == names[i];
    assert more[|names|] == name;
  }

  lemma {:induction false} DistinctPrefix(names: seq<string>, k: nat)
    requires k <= |names| && Distinct(names)
    ensures Distinct(names[..k])
  {
  }

  lemma AddNode(nodes: seq<ResolvedNode>, i: nat, entries: map<string, EntryId>,
                aliases: map<string, string>, first: EntryId)
    requires i < |nodes| && WellNamed(nodes[..i]) && Describes(entries, aliases, nodes[..i], first)
    ensures var node := nodes[i];
      if node.id == "" || node.alias == "" || node.id in entries || node.alias in aliases then
        !WellNamed(nodes)
      else
        && WellNamed(nodes[..i + 1])
        && Describes(entries[node.id := first + i], aliases[node.alias := node.id], nodes[..i + 1], first)
  {
    hide Distinct, Indexes;
    var node, known, more := nodes[i], nodes[..i], nodes[..i + 1];
    assert |known| == i && |more| == i + 1;
    IndexSnoc<EntryId>(entries, Ids(known), Consecutive(first, i), node.id, first + i);
    IndexSnoc(aliases, Aliases(known), Ids(known), node.alias, node.id);
    assert Ids(more) == Ids(known) + [node.id] == Ids(nodes)[..i + 1];
    assert Aliases(more) == Aliases(known) + [node.alias] == Aliases(nodes)[..i + 1];
    assert Consecutive(first, i + 1) == Consecutive(first, i) + [first + i];
    if WellNamed(nodes) {
      DistinctPrefix(Ids(nodes), i + 1);
      DistinctPrefix(Aliases(nodes), i + 1);
    }
  }

  lemma ResolveDefault(nodes: seq<ResolvedNode>, entries: map<string, EntryId>,
                       aliases: map<string, string>, first: EntryId, reference: string)
    requires Describes(entries, aliases, nodes, first)
    ensures if reference in entries then NamesNode(nodes, reference, reference)
            else if reference in aliases then NamesNode(nodes, reference, aliases[reference])
            else !exists id :: NamesNode(nodes, reference, id)
  {
    if reference !in entries && reference in aliases {
      var i :| 0 <= i < |nodes| && Aliases(nodes)[i] == reference;
      assert nodes[i].alias == reference && nodes[i].id == aliases[reference];
    }
    if i :| 0 <= i < |nodes| && nodes[i].alias == reference {
      assert Aliases(nodes)[i] == reference;
    }
  }

  /** Builds both indexes in one pass and refuses a profile on its first bad name. */
  method Prepare(nodes: seq<ResolvedNode>, defaultNode: string, first: EntryId)
    returns (result: Result<PoolState, PoolError>)
    ensures result == Err(Empty) <==> nodes == []
    ensures result == Err(DuplicateNode) <==> nodes != [] && !WellNamed(nodes)
    ensures result == Err(MissingDefault) <==>
      nodes != [] && WellNamed(nodes) && !exists id :: NamesNode(nodes, defaultNode, id)
    ensures result.Ok? ==>
      && nodes != [] && WellNamed(nodes) && result.value.generation == 0
      && Describes(result.value.nodes, result.value.aliases, nodes, first)
      && NamesNode(nodes, defaultNode, result.value.defaultNode)
    ensures result.Ok? || result in {Err(Empty), Err(DuplicateNode), Err(MissingDefault)}
  {
    if nodes == [] {
      return Err(Empty);
    }
    var aliases: map<string, string>, entries: map<string, EntryId> := map[], map[];
    assert WellNamed(nodes[..0]) && Describes(entries, aliases, nodes[..0], first);
    hide WellNamed, Describes, NamesNode;
    for i := 0 to |nodes|
      invariant WellNamed(nodes[..i]) && Describes(entries, aliases, nodes[..i], first)
    {
      var node := nodes[i];
      AddNode(nodes, i, entries, aliases, first);
      if node.id == "" || node.alias == "" || node.id in entries || node.alias in aliases {
        return Err(DuplicateNode);
      }
      aliases := aliases[node.alias := node.id];
      entries := entries[node.id := first + i];
    }
    assert nodes[..|nodes|] == nodes;
    ResolveDefault(nodes, entries, aliases, first, defaultNode);
    if defaultNode in entries {
      return Ok(PoolState(0, defaultNode, entries, aliases));
    }
    if defaultNode !in aliases {
      return Err(MissingDefault);
    }
    result := Ok(PoolState(0, aliases[defaultNode], entries, aliases));
  }
}
