/** The loaded node graph as the link resolver sees it, the old-to-new script-name
    mapping, and `findMaster` (Engine/KnobSerialization.cpp:186-242). */
module KnobGraph {
  import opened Common

  /** A parameter as the resolver sees it: its script name and whether it is saved with the project. */
  datatype KnobDesc = KnobDesc(name: string, isPersistent: bool)

  /** A tracking marker: its script name and its own parameters. */
  datatype TrackMarker = TrackMarker(scriptName: string, knobs: seq<KnobDesc>)

  /** The tracking context of a tracker node: its markers in order. */
  datatype TrackerContext = TrackerContext(markers: seq<TrackMarker>)

  /** A node: its script name, its top-level parameters, and its tracking context if it has one. */
  datatype Node = Node(scriptName: string, knobs: seq<KnobDesc>, trackerContext: Option<TrackerContext>)

  /** Where a resolved parameter lives: on a node of the list, or on a marker of a node's
      tracking context. Positions stand for the pointers of the source. */
  datatype KnobRef = NodeKnob(node: nat, knob: nat) | MarkerKnob(node: nat, marker: nat, knob: nat)

  function MarkerAt(nodes: seq<Node>, n: nat, m: nat): Option<TrackMarker>
  {
    if n < |nodes| && nodes[n].trackerContext.Some? && m < |nodes[n].trackerContext.value.markers|
    then Some(nodes[n].trackerContext.value.markers[m])
    else None
  }

  /** The parameter a reference designates, if the reference is valid. */
  function KnobAt(nodes: seq<Node>, r: KnobRef): Option<KnobDesc>
  {
    match r
    case NodeKnob(n, k) =>
      if n < |nodes| && k < |nodes[n].knobs| then Some(nodes[n].knobs[k]) else None
    case MarkerKnob(n, m, k) =>
      match MarkerAt(nodes, n, m)
      case None => None
      case Some(marker) => if k < |marker.knobs| then Some(marker.knobs[k]) else None
  }

  // ---------------------------------------------------------------------------
  // The old-to-new script-name mapping

  /** A `std::map<std::string, std::string>` is given by its entries in iteration order. */
  type ScriptNameMapping = seq<(string, string)>

  /** `std::string` ordering: lexicographic on characters (for UTF-8 text the same as
      comparing the unsigned bytes). */
  predicate StrLess(a: string, b: string)
    decreases |a|
  {
    if a == [] then b != []
    else if b == [] then false
    else if a[0] != b[0] then a[0] < b[0]
    else StrLess(a[1..], b[1..])
  }

  lemma {:induction false} StrLessIrreflexive(a: string)
    ensures !StrLess(a, a)
    decreases |a|
  {
    if a != [] {
      StrLessIrreflexive(a[1..]);
    }
  }

  /** What a `std::map` guarantees about its iteration order: strictly ascending keys. */
  predicate IsOrderedMapping(mapping: ScriptNameMapping)
  {
    forall i, j :: 0 <= i < j < |mapping| ==> StrLess(mapping[i].0, mapping[j].0)
  }

  /** `oldNewScriptNamesMapping.find(saved)`: the new name if `saved` is a key, else `saved`. */
  function MappedName(mapping: ScriptNameMapping, saved: string): (r: string)
    ensures (forall i :: 0 <= i < |mapping| ==> mapping[i].0 != saved) ==> r == saved
    ensures IsOrderedMapping(mapping) ==>
      forall i :: 0 <= i < |mapping| && mapping[i].0 == saved ==> r == mapping[i].1
  {
    StrLessIrreflexive(saved);
    match FirstIndex(mapping, (e: (string, string)) => e.0 == saved)
    case None => saved
    case Some(i) => mapping[i].1
  }

  // ---------------------------------------------------------------------------
  // findMaster

  function FindNode(nodes: seq<Node>, scriptName: string): Option<nat>
  {
    FirstIndex(nodes, (nd: Node) => nd.scriptName == scriptName)
  }

  /** `TrackerContext::getMarkerByName` (not part of this model): the first marker with that name. */
  function MarkerByName(context: TrackerContext, name: string): Option<nat>
  {
    FirstIndex(context.markers, (mk: TrackMarker) => mk.scriptName == name)
  }

  /** `KnobHolder::getKnobByName` (not part of this model): the first parameter with that name. */
  function KnobByName(knobs: seq<KnobDesc>, name: string): Option<nat>
  {
    FirstIndex(knobs, (kd: KnobDesc) => kd.name == name)
  }

  predicate IsPersistentNamed(kd: KnobDesc, name: string)
  {
    kd.name == name && kd.isPersistent
  }

  /** Where `findMaster` resolves a saved link: the node is the first whose script name is
      the (remapped) saved node name; with a track name the parameter comes from that
      marker by name, otherwise it is the node's first persistent parameter of that name. */
  function MasterLookup(nodes: seq<Node>, knobName: string, nodeName: string, trackName: string,
                        mapping: ScriptNameMapping): (r: Option<KnobRef>)
    ensures FindNode(nodes, MappedName(mapping, nodeName)).None? ==> r.None?
    ensures r.Some? ==>
      var n := r.value.node;
      && n < |nodes| && nodes[n].scriptName == MappedName(mapping, nodeName)
      && (forall j :: 0 <= j < n ==> nodes[j].scriptName != MappedName(mapping, nodeName))
      && KnobAt(nodes, r.value).Some? && KnobAt(nodes, r.value).value.name == knobName
    ensures r.Some? && trackName != [] ==>
      r.value.MarkerKnob? && MarkerAt(nodes, r.value.node, r.value.marker).Some? &&
      MarkerAt(nodes, r.value.node, r.value.marker).value.scriptName == trackName
    ensures r.Some? && trackName == [] ==>
      r.value.NodeKnob? && KnobAt(nodes, r.value).value.isPersistent &&
      forall j :: 0 <= j < r.value.knob ==> !IsPersistentNamed(nodes[r.value.node].knobs[j], knobName)
  {
    match FindNode(nodes, MappedName(mapping, nodeName))
    case None => None
    case Some(n) =>
      if trackName != [] then
        match nodes[n].trackerContext
        case None => None
        case Some(context) =>
          match MarkerByName(context, trackName)
          case None => None
          case Some(m) =>
            match KnobByName(context.markers[m].knobs, knobName)
            case None => None
            case Some(k) => Some(MarkerKnob(n, m, k))
      else
        match FirstIndex(nodes[n].knobs, (kd: KnobDesc) => IsPersistentNamed(kd, knobName))
        case None => None
        case Some(k) => Some(NodeKnob(n, k))
  }

  /** `findMaster`: remaps the node name, scans the node list, then either goes through
      the tracking marker or scans the node's parameters. Diagnostics are not modelled. */
  method FindMaster(allNodes: seq<Node>, masterKnobName: string, masterNodeName: string,
                    masterTrackName: string, mapping: ScriptNameMapping)
    returns (r: Option<KnobRef>)
    ensures r == MasterLookup(allNodes, masterKnobName, masterNodeName, masterTrackName, mapping)
  {
    var masterNodeNameToFind := MappedName(mapping, masterNodeName);
    var found := false;
    var n := 0;
    while n < |allNodes|
      invariant 0 <= n <= |allNodes| && !found
      invariant forall j :: 0 <= j < n ==> allNodes[j].scriptName != masterNodeNameToFind
    {
      if allNodes[n].scriptName == masterNodeNameToFind {
        found := true;
        break;
      }
      n := n + 1;
    }
    if !found {
      return None;
    }
    FirstIndexAt(allNodes, (nd: Node) => nd.scriptName == masterNodeNameToFind, n);
    var masterNode := allNodes[n];

    if masterTrackName != [] {
      if masterNode.trackerContext.Some? {
        var context := masterNode.trackerContext.value;
        var marker := MarkerByName(context, masterTrackName);
        if marker.Some? {
          var k := KnobByName(context.markers[marker.value].knobs, masterKnobName);
          return if k.Some? then Some(MarkerKnob(n, marker.value, k.value)) else None;
        }
      }
    } else {
      var otherKnobs := masterNode.knobs;
      var j := 0;
      while j < |otherKnobs|
        invariant 0 <= j <= |otherKnobs|
        invariant forall i :: 0 <= i < j ==> !IsPersistentNamed(otherKnobs[i], masterKnobName)
      {
        if otherKnobs[j].name == masterKnobName && otherKnobs[j].isPersistent {
          FirstIndexAt(otherKnobs, (kd: KnobDesc) => IsPersistentNamed(kd, masterKnobName), j);
          return Some(NodeKnob(n, j));
        }
        j := j + 1;
      }
    }
    return None;
  }

  // ---------------------------------------------------------------------------
  // Lookup properties

  /** A saved link to a node's parameter resolves to it when the node is the first with the
      (remapped) name and the parameter is its first persistent one with that name, whether
      the node kept its name or was renamed through the mapping. */
  lemma ResolvesToNodeKnob(nodes: seq<Node>, knobName: string, nodeName: string, mapping: ScriptNameMapping, n: nat, k: nat)
    requires n < |nodes| && nodes[n].scriptName == MappedName(mapping, nodeName)
    requires forall j :: 0 <= j < n ==> nodes[j].scriptName != nodes[n].scriptName
    requires k < |nodes[n].knobs| && IsPersistentNamed(nodes[n].knobs[k], knobName)
    requires forall j :: 0 <= j < k ==> !IsPersistentNamed(nodes[n].knobs[j], knobName)
    ensures MasterLookup(nodes, knobName, nodeName, "", mapping) == Some(NodeKnob(n, k))
  {
    FirstIndexAt(nodes, (nd: Node) => nd.scriptName == MappedName(mapping, nodeName), n);
    FirstIndexAt(nodes[n].knobs, (kd: KnobDesc) => IsPersistentNamed(kd, knobName), k);
  }

  /** A saved link through a tracking marker resolves to the marker's own parameter,
      never to a same-named parameter of the node itself. */
  lemma ResolvesToMarkerKnob(nodes: seq<Node>, knobName: string, nodeName: string, trackName: string,
                             mapping: ScriptNameMapping, n: nat, m: nat, k: nat)
    requires trackName != []
    requires n < |nodes| && nodes[n].scriptName == MappedName(mapping, nodeName)
    requires forall j :: 0 <= j < n ==> nodes[j].scriptName != nodes[n].scriptName
    requires MarkerAt(nodes, n, m).Some? && MarkerAt(nodes, n, m).value.scriptName == trackName
    requires forall j :: 0 <= j < m ==> nodes[n].trackerContext.value.markers[j].scriptName != trackName
    requires k < |MarkerAt(nodes, n, m).value.knobs| && MarkerAt(nodes, n, m).value.knobs[k].name == knobName
    requires forall j :: 0 <= j < k ==> MarkerAt(nodes, n, m).value.knobs[j].name != knobName
    ensures MasterLookup(nodes, knobName, nodeName, trackName, mapping) == Some(MarkerKnob(n, m, k))
  {
    var context := nodes[n].trackerContext.value;
    FirstIndexAt(nodes, (nd: Node) => nd.scriptName == MappedName(mapping, nodeName), n);
    FirstIndexAt(context.markers, (mk: TrackMarker) => mk.scriptName == trackName, m);
    FirstIndexAt(context.markers[m].knobs, (kd: KnobDesc) => kd.name == knobName, k);
  }

  /** With an ordered mapping, a saved node name that is a key resolves under its new name. */
  lemma RemappedNameIsUsed(mapping: ScriptNameMapping, i: nat)
    requires IsOrderedMapping(mapping) && i < |mapping|
    ensures MappedName(mapping, mapping[i].0) == mapping[i].1
  {
  }
}
