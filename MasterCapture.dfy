/** Save-time capture of a dimension's master link and expression:
    `ValueSerialization::initForSave` (Engine/KnobSerialization.cpp:87-132). */
module MasterCapture {
  import opened Common
  import opened KnobGraph

  /** Who holds the master parameter: a node, or a tracking marker together with the
      script name of the node owning its tracking context. NoHolder is the case the source
      asserts cannot happen and tolerates by recording an empty node name. */
  datatype Holder =
    | NodeHolder(scriptName: string)
    | MarkerHolder(markerName: string, contextNodeName: string)
    | NoHolder

  /** A live master binding of one dimension: the master's dimension and parameter name, and its holder. */
  datatype MasterBinding = MasterBinding(dimension: nat, knobName: string, holder: Holder)

  /** What the capture asks of the live parameter: `getMaster(dimension)` for each dimension
      that has a master, and `isMastersPersistenceIgnored()`. */
  datatype KnobView = KnobView(name: string, masters: map<int, MasterBinding>, mastersPersistenceIgnored: bool)

  function GetMaster(knob: KnobView, dimension: int): Option<MasterBinding>
  {
    if dimension in knob.masters then Some(knob.masters[dimension]) else None
  }

  /** The persisted form of a master link; masterDimension -1 means "no master". */
  datatype MasterSerialization = MasterSerialization(
    masterDimension: int,
    masterNodeName: string,
    masterKnobName: string,
    masterTrackName: string)

  /** A default-constructed record (the header declaring it is not part of this model). */
  const NoMaster := MasterSerialization(-1, "", "", "")

  /** What `initForSave` leaves in `_master`, given the record's previous content.
      Only the fields the source assigns change: a node-held master keeps the previous
      track name, and without a master only the dimension is reset to -1. */
  function CaptureMaster(prev: MasterSerialization, binding: Option<MasterBinding>, ignored: bool): (r: MasterSerialization)
    ensures r.masterDimension == -1 <==> binding.None? || ignored
    ensures binding.None? || ignored ==> r == prev.(masterDimension := -1)
    ensures binding.Some? && !ignored ==>
      r.masterDimension == binding.value.dimension && r.masterKnobName == binding.value.knobName
    ensures binding.Some? && !ignored && binding.value.holder.MarkerHolder? ==>
      r.masterTrackName == binding.value.holder.markerName &&
      r.masterNodeName == binding.value.holder.contextNodeName
    ensures binding.Some? && !ignored && binding.value.holder.NodeHolder? ==>
      r.masterNodeName == binding.value.holder.scriptName && r.masterTrackName == prev.masterTrackName
    ensures binding.Some? && !ignored && binding.value.holder.NoHolder? ==>
      r.masterNodeName == [] && r.masterTrackName == prev.masterTrackName
  {
    if binding.Some? && !ignored then
      var m := binding.value;
      var named :=
        match m.holder
        case MarkerHolder(markerName, contextNodeName) =>
          prev.(masterTrackName := markerName, masterNodeName := contextNodeName)
        case NodeHolder(scriptName) => prev.(masterNodeName := scriptName)
        case NoHolder => prev.(masterNodeName := "");
      named.(masterDimension := m.dimension, masterKnobName := m.knobName)
    else
      prev.(masterDimension := -1)
  }

  /** A saved dimension: the live parameter it was read from, its expression and master link. */
  class ValueSerialization {
    var knob: KnobView
    var dimension: int
    var expression: string
    var exprHasRetVar: bool
    var master: MasterSerialization

    /** The save-time constructor: default fields, then `initForSave`. */
    constructor (knob: KnobView, dimension: int, exprHasRetVar: bool, expr: string)
      ensures this.knob == knob && this.dimension == dimension
      ensures expression == expr && this.exprHasRetVar == exprHasRetVar
      ensures master == CaptureMaster(NoMaster, GetMaster(knob, dimension), knob.mastersPersistenceIgnored)
    {
      this.knob := knob;
      this.dimension := 0;
      expression := "";
      this.exprHasRetVar := false;
      master := NoMaster;
      new;
      InitForSave(knob, dimension, exprHasRetVar, expr);
    }

    method InitForSave(knob: KnobView, dimension: int, exprHasRetVar: bool, expr: string)
      modifies this
      ensures this.knob == knob && this.dimension == dimension
      ensures expression == expr && this.exprHasRetVar == exprHasRetVar
      ensures master == CaptureMaster(old(master), GetMaster(knob, dimension), knob.mastersPersistenceIgnored)
    {
      this.knob := knob;
      this.dimension := dimension;
      expression := expr;
      this.exprHasRetVar := exprHasRetVar;

      var m := GetMaster(knob, dimension);
      if m.Some? && !knob.mastersPersistenceIgnored {
        master := master.(masterDimension := m.value.dimension);
        match m.value.holder {
          case MarkerHolder(markerName, contextNodeName) =>
            master := master.(masterTrackName := markerName);
            master := master.(masterNodeName := contextNodeName);
          case NodeHolder(scriptName) =>
            master := master.(masterNodeName := scriptName);
          case NoHolder =>
            master := master.(masterNodeName := "");
        }
        master := master.(masterKnobName := m.value.knobName);
      } else {
        master := master.(masterDimension := -1);
      }
    }
  }

  // ---------------------------------------------------------------------------
  // Saving a link and resolving it after load

  /** A link to a node's parameter, captured into a fresh record, resolves after load to
      the same parameter: the node may have been renamed through the mapping, and must be
      the first with its name; the parameter must be its first persistent one with that name. */
  lemma SaveThenRestoreNodeLink(nodes: seq<Node>, mapping: ScriptNameMapping, binding: MasterBinding, n: nat, k: nat)
    requires binding.holder.NodeHolder?
    requires n < |nodes| && nodes[n].scriptName == MappedName(mapping, binding.holder.scriptName)
    requires forall j :: 0 <= j < n ==> nodes[j].scriptName != nodes[n].scriptName
    requires k < |nodes[n].knobs| && IsPersistentNamed(nodes[n].knobs[k], binding.knobName)
    requires forall j :: 0 <= j < k ==> !IsPersistentNamed(nodes[n].knobs[j], binding.knobName)
    ensures var saved := CaptureMaster(NoMaster, Some(binding), false);
      && saved.masterDimension == binding.dimension
      && MasterLookup(nodes, saved.masterKnobName, saved.masterNodeName, saved.masterTrackName, mapping) == Some(NodeKnob(n, k))
  {
    ResolvesToNodeKnob(nodes, binding.knobName, binding.holder.scriptName, mapping, n, k);
  }

  /** A link to a tracking marker's parameter, captured into a record, resolves after load
      through the marker to that parameter. A marker with an empty script name would be
      looked for among the node's own parameters instead, so the name must be non-empty. */
  lemma SaveThenRestoreMarkerLink(nodes: seq<Node>, mapping: ScriptNameMapping, prev: MasterSerialization,
                                  binding: MasterBinding, n: nat, m: nat, k: nat)
    requires binding.holder.MarkerHolder? && binding.holder.markerName != []
    requires n < |nodes| && nodes[n].scriptName == MappedName(mapping, binding.holder.contextNodeName)
    requires forall j :: 0 <= j < n ==> nodes[j].scriptName != nodes[n].scriptName
    requires MarkerAt(nodes, n, m).Some? && MarkerAt(nodes, n, m).value.scriptName == binding.holder.markerName
    requires forall j :: 0 <= j < m ==> nodes[n].trackerContext.value.markers[j].scriptName != binding.holder.markerName
    requires k < |MarkerAt(nodes, n, m).value.knobs| && MarkerAt(nodes, n, m).value.knobs[k].name == binding.knobName
    requires forall j :: 0 <= j < k ==> MarkerAt(nodes, n, m).value.knobs[j].name != binding.knobName
    ensures var saved := CaptureMaster(prev, Some(binding), false);
      && saved.masterDimension == binding.dimension
      && MasterLookup(nodes, saved.masterKnobName, saved.masterNodeName, saved.masterTrackName, mapping) == Some(MarkerKnob(n, m, k))
  {
    ResolvesToMarkerKnob(nodes, binding.knobName, binding.holder.contextNodeName, binding.holder.markerName, mapping, n, m, k);
  }

  /** Re-capturing into a record that already holds a track name keeps that name for a
      node-held master, and the record then resolves through a marker, not the node. */
  lemma StaleTrackNameRedirectsLookup(nodes: seq<Node>, mapping: ScriptNameMapping, prev: MasterSerialization, binding: MasterBinding)
    requires binding.holder.NodeHolder? && prev.masterTrackName != []
    ensures var saved := CaptureMaster(prev, Some(binding), false);
      var r := MasterLookup(nodes, saved.masterKnobName, saved.masterNodeName, saved.masterTrackName, mapping);
      r.None? || r.value.MarkerKnob?
  {
  }
}
