/** The loaded parameter a serialization record restores into, and
    `KnobSerialization::restoreKnobLinks` (Engine/KnobSerialization.cpp:244-275). */
module LinkRestoration {
  import opened Common
  import opened KnobGraph
  import opened MasterCapture

  /** The part of a loaded parameter record that restoration reads: the saved dimension
      count, the alias flag, one master entry per saved dimension, and per
      dimension the expression text with its "has return variable" flag. */
  datatype KnobSerialization = KnobSerialization(
    dimension: nat,
    masterIsAlias: bool,
    masters: seq<MasterSerialization>,
    expressions: seq<(string, bool)>)

  /** A dimension slaved to dimension `masterDimension` of the parameter at `master`. */
  datatype Link = Link(master: KnobRef, masterDimension: int)

  /** What the scripting engine says when an expression is installed. */
  datatype InstallOutcome = Installed | Failed(what: string)

  /** The scripting engine's verdict on (dimension, expression text, has return variable). */
  type ExpressionEngine = (int, string, bool) -> InstallOutcome

  /** A live parameter of the freshly loaded graph. `slaveTo`, `setKnobAsAliasOfThis` and
      `restoreExpression` are modelled by what they record, not by their internals. */
  class LiveKnob {
    const name: string
    const dimension: nat
    var slaves: map<int, Link>
    var aliasTarget: Option<KnobRef>
    var expressions: map<int, (string, bool)>

    constructor (name: string, dimension: nat)
      ensures this.name == name && this.dimension == dimension
      ensures slaves == map[] && aliasTarget == None && expressions == map[]
    {
      this.name := name;
      this.dimension := dimension;
      slaves := map[];
      aliasTarget := None;
      expressions := map[];
    }

    /** `slaveTo(dimension, master, masterDimension)`: records the link of one dimension. */
    method SlaveTo(dim: int, master: KnobRef, masterDimension: int)
      modifies this
      ensures slaves == old(slaves)[dim := Link(master, masterDimension)]
      ensures aliasTarget == old(aliasTarget) && expressions == old(expressions)
    {
      slaves := slaves[dim := Link(master, masterDimension)];
    }

    /** `setKnobAsAliasOfThis(master, true)`: records the whole-parameter alias. */
    method SetKnobAsAliasOfThis(master: KnobRef)
      modifies this
      ensures aliasTarget == Some(master)
      ensures slaves == old(slaves) && expressions == old(expressions)
    {
      aliasTarget := Some(master);
    }

    /** `restoreExpression(dimension, expr, hasRetVar)`: installs the text when the engine
      accepts it; a rejection leaves the parameter as it was and is reported to the caller. */
    method RestoreExpression(dim: int, expr: string, hasRetVar: bool, engine: ExpressionEngine)
      returns (outcome: InstallOutcome)
      modifies this
      ensures outcome == engine(dim, expr, hasRetVar)
      ensures outcome.Installed? ==> expressions == old(expressions)[dim := (expr, hasRetVar)]
      ensures outcome.Failed? ==> expressions == old(expressions)
      ensures slaves == old(slaves) && aliasTarget == old(aliasTarget)
    {
      outcome := engine(dim, expr, hasRetVar);
      if outcome.Installed? {
        expressions := expressions[dim := (expr, hasRetVar)];
      }
    }
  }

  /** Where a saved master entry resolves in the loaded graph. */
  function Resolve(m: MasterSerialization, nodes: seq<Node>, mapping: ScriptNameMapping): Option<KnobRef>
  {
    MasterLookup(nodes, m.masterKnobName, m.masterNodeName, m.masterTrackName, mapping)
  }

  /** Where each saved master entry resolves, in entry order. */
  function ResolveAll(masters: seq<MasterSerialization>, nodes: seq<Node>, mapping: ScriptNameMapping): (rs: seq<Option<KnobRef>>)
    ensures |rs| == |masters|
  {
    seq(|masters|, k requires 0 <= k < |masters| => Resolve(masters[k], nodes, mapping))
  }

  /** The links restored from the first `n` master entries, given where each resolves:
      entry k slaves dimension k when it is not the -1 sentinel and it resolves. */
  function SlaveLinks(masters: seq<MasterSerialization>, resolved: seq<Option<KnobRef>>, n: int): map<int, Link>
    requires |resolved| == |masters|
  {
    map k | 0 <= k < n && k < |masters| && masters[k].masterDimension != -1 && resolved[k].Some?
      :: Link(resolved[k].value, masters[k].masterDimension)
  }

  /** `restoreKnobLinks`. In alias mode only the front entry is used (and an empty list does
      nothing); otherwise each entry is tried for the dimension at its position. Unresolved
      entries are skipped. */
  method RestoreKnobLinks(ser: KnobSerialization, knob: LiveKnob, allNodes: seq<Node>, mapping: ScriptNameMapping)
    modifies knob
    ensures knob.expressions == old(knob.expressions)
    ensures ser.masterIsAlias ==>
      && knob.slaves == old(knob.slaves)
      && knob.aliasTarget ==
           if ser.masters != [] && Resolve(ser.masters[0], allNodes, mapping).Some?
           then Resolve(ser.masters[0], allNodes, mapping)
           else old(knob.aliasTarget)
    ensures !ser.masterIsAlias ==>
      && knob.aliasTarget == old(knob.aliasTarget)
      && knob.slaves == old(knob.slaves) + SlaveLinks(ser.masters, ResolveAll(ser.masters, allNodes, mapping), |ser.masters|)
  {
    if ser.masterIsAlias {
      if ser.masters != [] {
        var front := ser.masters[0];
        var alias := FindMaster(allNodes, front.masterKnobName, front.masterNodeName, front.masterTrackName, mapping);
        if alias.Some? {
          knob.SetKnobAsAliasOfThis(alias.value);
        }
      }
    } else {
      RestoreDimensionLinks(ser.masters, knob, allNodes, mapping);
    }
  }

  /** The per-dimension branch of `restoreKnobLinks`: entry i, when it is not the -1
      sentinel and it resolves, slaves dimension i. */
  method RestoreDimensionLinks(masters: seq<MasterSerialization>, knob: LiveKnob, allNodes: seq<Node>, mapping: ScriptNameMapping)
    modifies knob
    ensures knob.aliasTarget == old(knob.aliasTarget) && knob.expressions == old(knob.expressions)
    ensures knob.slaves == old(knob.slaves) + SlaveLinks(masters, ResolveAll(masters, allNodes, mapping), |masters|)
  {
    ghost var resolved := ResolveAll(masters, allNodes, mapping);
    assert SlaveLinks(masters, resolved, 0) == map[];
    assert knob.slaves == old(knob.slaves) + map[];
    var i := 0;
    while i < |masters|
      invariant 0 <= i <= |masters|
      invariant knob.slaves == old(knob.slaves) + SlaveLinks(masters, resolved, i)
      invariant knob.aliasTarget == old(knob.aliasTarget) && knob.expressions == old(knob.expressions)
    {
      SlaveLinksStep(masters, resolved, i);
      ghost var before := SlaveLinks(masters, resolved, i);
      assert resolved[i] == Resolve(masters[i], allNodes, mapping);
      RestoreDimensionLink(masters[i], i, knob, allNodes, mapping);
      if masters[i].masterDimension != -1 && resolved[i].Some? {
        UnionUpdate(old(knob.slaves), before, i, Link(resolved[i].value, masters[i].masterDimension));
      }
      i := i + 1;
    }
  }

  /** One iteration of the per-dimension loop: entry `it`, at position `dim`, slaves that
      dimension when it is not the -1 sentinel and it resolves. */
  method RestoreDimensionLink(it: MasterSerialization, dim: int, knob: LiveKnob, allNodes: seq<Node>, mapping: ScriptNameMapping)
    modifies knob
    ensures knob.aliasTarget == old(knob.aliasTarget) && knob.expressions == old(knob.expressions)
    ensures knob.slaves ==
      if it.masterDimension != -1 && Resolve(it, allNodes, mapping).Some?
      then old(knob.slaves)[dim := Link(Resolve(it, allNodes, mapping).value, it.masterDimension)]
      else old(knob.slaves)
  {
    if it.masterDimension != -1 {
      var master := FindMaster(allNodes, it.masterKnobName, it.masterNodeName, it.masterTrackName, mapping);
      if master.Some? {
        knob.SlaveTo(dim, master.value, it.masterDimension);
      }
    }
  }

  lemma UnionUpdate<K, V>(a: map<K, V>, b: map<K, V>, k: K, v: V)
    ensures (a + b)[k := v] == a + b[k := v]
  {
  }

  /** One more entry extends the restored links by at most the link of its own position. */
  lemma SlaveLinksStep(masters: seq<MasterSerialization>, resolved: seq<Option<KnobRef>>, i: nat)
    requires |resolved| == |masters| && i < |masters|
    ensures SlaveLinks(masters, resolved, i + 1) ==
      if masters[i].masterDimension != -1 && resolved[i].Some?
      then SlaveLinks(masters, resolved, i)[i := Link(resolved[i].value, masters[i].masterDimension)]
      else SlaveLinks(masters, resolved, i)
  {
  }

  /** Per-dimension restoration touches only the positions of non-sentinel entries that
      resolve; every other dimension keeps whatever link it had. */
  lemma SlaveLinksDomain(masters: seq<MasterSerialization>, nodes: seq<Node>, mapping: ScriptNameMapping, d: int)
    ensures d in SlaveLinks(masters, ResolveAll(masters, nodes, mapping), |masters|) <==>
      0 <= d < |masters| && masters[d].masterDimension != -1 && Resolve(masters[d], nodes, mapping).Some?
  {
  }

  /** When every non-sentinel entry resolves, exactly the non-sentinel positions are slaved. */
  lemma AllResolvedSlavesExactlyNonSentinel(masters: seq<MasterSerialization>, nodes: seq<Node>, mapping: ScriptNameMapping)
    requires forall k :: 0 <= k < |masters| && masters[k].masterDimension != -1 ==> Resolve(masters[k], nodes, mapping).Some?
    ensures SlaveLinks(masters, ResolveAll(masters, nodes, mapping), |masters|).Keys ==
      set k | 0 <= k < |masters| && masters[k].masterDimension != -1
  {
  }
}
