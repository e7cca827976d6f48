/** The legacy parameter-name compatibility rules (Engine/KnobSerialization.cpp:350-625):
    the rule records, the built-in table, the matcher of one rule and the first-match
    rename over an ordered rule list. The table is an explicit parameter rather than
    process-wide static state. */
module NameFilters {
  import opened Common
  import opened StringMatchers

  /** The name predicate of one entry: `func(name, nameToMatch)`. */
  datatype FilterMatcher = FilterMatcher(nameToMatch: string, func: Comparison)

  /** A plug-in condition: an ID compared with `func` and a plug-in version window
      (major and minor; -1 leaves that bound open). */
  datatype PluginMatch = PluginMatch(
    pluginID: string,
    pluginVersionMajorMin: int, pluginVersionMinorMin: int,
    pluginVersionMajorMax: int, pluginVersionMinorMax: int,
    func: Comparison)

  /** One entry of a rule: the plug-ins it is restricted to (none = any plug-in) and its name predicate. */
  datatype KnobMatch = KnobMatch(plugin: seq<PluginMatch>, filter: FilterMatcher)

  /** An application version bound; -1 on an axis leaves that axis open. */
  datatype NatronVersionMatch = NatronVersionMatch(major: int, minor: int, rev: int)

  /** The default-constructed bound: open on every axis. */
  const Unbounded := NatronVersionMatch(-1, -1, -1)

  /** A rename rule: entries, the replacement name, and the application-version window. */
  datatype KnobNameFilter = KnobNameFilter(
    filters: seq<KnobMatch>,
    replacement: string,
    natronVersionMin: NatronVersionMatch,
    natronVersionMax: NatronVersionMatch)

  /** What `filterKnobNameCompat` is told besides the name: the owning plug-in and the
      application version the project was saved with; -1 means "unknown". */
  datatype LoadContext = LoadContext(
    pluginID: string,
    pluginVersionMajor: int, pluginVersionMinor: int,
    natronVersionMajor: int, natronVersionMinor: int, natronVersionRevision: int)

  // ---------------------------------------------------------------------------
  // Building rules (Engine/KnobSerialization.cpp:446-482)

  /** `addPluginMatch`: appends a plug-in condition compared case-insensitively. */
  function AddPluginMatch(m: KnobMatch, pluginID: string, pluginMajorMin: int := -1, pluginMinorMin: int := -1,
                          pluginMajorMax: int := -1, pluginMinorMax: int := -1): (r: KnobMatch)
    ensures r.filter == m.filter && |r.plugin| == |m.plugin| + 1 && r.plugin[..|m.plugin|] == m.plugin
    ensures r.plugin[|m.plugin|] ==
      PluginMatch(pluginID, pluginMajorMin, pluginMinorMin, pluginMajorMax, pluginMinorMax, CaseInsensitiveMatch)
  {
    m.(plugin := m.plugin + [PluginMatch(pluginID, pluginMajorMin, pluginMinorMin, pluginMajorMax, pluginMinorMax, CaseInsensitiveMatch)])
  }

  /** `addKnobFilter`: appends a plug-in-agnostic entry with the given name predicate. */
  function AddKnobFilter(f: KnobNameFilter, nameToMatch: string, func: Comparison): (r: KnobNameFilter)
    ensures r.replacement == f.replacement && r.natronVersionMin == f.natronVersionMin && r.natronVersionMax == f.natronVersionMax
    ensures |r.filters| == |f.filters| + 1 && r.filters[..|f.filters|] == f.filters
    ensures r.filters[|f.filters|] == KnobMatch([], FilterMatcher(nameToMatch, func))
  {
    f.(filters := f.filters + [KnobMatch([], FilterMatcher(nameToMatch, func))])
  }

  function SetNatronVersionMin(f: KnobNameFilter, major: int := -1, minor: int := -1, rev: int := -1): (r: KnobNameFilter)
    ensures r.natronVersionMin == NatronVersionMatch(major, minor, rev)
    ensures r.filters == f.filters && r.replacement == f.replacement && r.natronVersionMax == f.natronVersionMax
  {
    f.(natronVersionMin := NatronVersionMatch(major, minor, rev))
  }

  function SetNatronVersionMax(f: KnobNameFilter, major: int := -1, minor: int := -1, rev: int := -1): (r: KnobNameFilter)
    ensures r.natronVersionMax == NatronVersionMatch(major, minor, rev)
    ensures r.filters == f.filters && r.replacement == f.replacement && r.natronVersionMin == f.natronVersionMin
  {
    f.(natronVersionMax := NatronVersionMatch(major, minor, rev))
  }

  // ---------------------------------------------------------------------------
  // The built-in table (Engine/KnobSerialization.cpp:484-528)

  /** The OFX process-channel parameter names of ofxNatron.h (not part of this model);
      the proofs only use that the four are non-empty. */
  const ProcessR: string := "NatronOfxParamProcessR"
  const ProcessG: string := "NatronOfxParamProcessG"
  const ProcessB: string := "NatronOfxParamProcessB"
  const ProcessA: string := "NatronOfxParamProcessA"

  /** One block of the table: two exact-name entries and a maximum application version of 1. */
  function ChannelRule(replacement: string, shortName: string, longName: string): KnobNameFilter
  {
    var f := KnobNameFilter([], replacement, Unbounded, Unbounded);
    var f := AddKnobFilter(f, shortName, ExactMatch);
    var f := AddKnobFilter(f, longName, ExactMatch);
    SetNatronVersionMax(f, 1)
  }

  function BuiltinFilters(): (t: seq<KnobNameFilter>)
    ensures |t| == 4 && forall i :: 0 <= i < |t| ==> t[i].replacement != []
  {
    [ ChannelRule(ProcessR, "r", "doRed"),
      ChannelRule(ProcessG, "g", "doGreen"),
      ChannelRule(ProcessB, "b", "doBlue"),
      ChannelRule(ProcessA, "a", "doAlpha") ]
  }

  /** `KnobNameFilters`: the table, built block by block with `push_back`. */
  class KnobNameFilters {
    var filters: seq<KnobNameFilter>

    constructor ()
      ensures filters == BuiltinFilters()
    {
      filters := [];
      var f := KnobNameFilter([], ProcessR, Unbounded, Unbounded);
      f := AddKnobFilter(f, "r", ExactMatch);
      f := AddKnobFilter(f, "doRed", ExactMatch);
      f := SetNatronVersionMax(f, 1);
      filters := filters + [f];
      f := KnobNameFilter([], ProcessG, Unbounded, Unbounded);
      f := AddKnobFilter(f, "g", ExactMatch);
      f := AddKnobFilter(f, "doGreen", ExactMatch);
      f := SetNatronVersionMax(f, 1);
      filters := filters + [f];
      f := KnobNameFilter([], ProcessB, Unbounded, Unbounded);
      f := AddKnobFilter(f, "b", ExactMatch);
      f := AddKnobFilter(f, "doBlue", ExactMatch);
      f := SetNatronVersionMax(f, 1);
      filters := filters + [f];
      f := KnobNameFilter([], ProcessA, Unbounded, Unbounded);
      f := AddKnobFilter(f, "a", ExactMatch);
      f := AddKnobFilter(f, "doAlpha", ExactMatch);
      f := SetNatronVersionMax(f, 1);
      filters := filters + [f];
    }
  }

  // ---------------------------------------------------------------------------
  // What a rule means (Engine/KnobSerialization.cpp:530-607)

  /** One axis of a version window. The source's test rejects exactly when the value and
      the bound are both known (not -1) and the value lies outside. */
  function AxisAdmits(v: int, lo: int, hi: int): (ok: bool)
    ensures !ok <==> (v != -1 && lo != -1 && v < lo) || (v != -1 && hi != -1 && v > hi)
    ensures v == -1 ==> ok
    ensures lo == -1 ==> (ok <==> v == -1 || hi == -1 || v <= hi)
    ensures hi == -1 ==> (ok <==> v == -1 || lo == -1 || lo <= v)
  {
    v == -1 || ((lo == -1 || lo <= v) && (hi == -1 || v <= hi))
  }

  predicate NatronVersionAdmits(f: KnobNameFilter, ctx: LoadContext)
  {
    && AxisAdmits(ctx.natronVersionMajor, f.natronVersionMin.major, f.natronVersionMax.major)
    && AxisAdmits(ctx.natronVersionMinor, f.natronVersionMin.minor, f.natronVersionMax.minor)
    && AxisAdmits(ctx.natronVersionRevision, f.natronVersionMin.rev, f.natronVersionMax.rev)
  }

  predicate PluginIdMatches(p: PluginMatch, ctx: LoadContext)
  {
    Compare(p.func, ctx.pluginID, p.pluginID)
  }

  predicate PluginVersionAdmits(p: PluginMatch, ctx: LoadContext)
  {
    && AxisAdmits(ctx.pluginVersionMajor, p.pluginVersionMajorMin, p.pluginVersionMajorMax)
    && AxisAdmits(ctx.pluginVersionMinor, p.pluginVersionMinorMin, p.pluginVersionMinorMax)
  }

  /** The plug-in condition an entry is judged by: the first one whose ID matches. */
  function FirstIdMatch(plugins: seq<PluginMatch>, ctx: LoadContext): Option<nat>
  {
    FirstIndex(plugins, (p: PluginMatch) => PluginIdMatches(p, ctx))
  }

  predicate NameMatches(e: KnobMatch, name: string)
  {
    Compare(e.filter.func, name, e.filter.nameToMatch)
  }

  /** How one entry decides: Accept (the rule matches), Reject (the whole rule fails),
      or Skip (go on to the next entry). */
  datatype Verdict = Accept | Skip | Reject

  function EntryVerdict(e: KnobMatch, name: string, ctx: LoadContext): Verdict
  {
    var byPlugin :=
      if e.plugin == [] then Accept
      else match FirstIdMatch(e.plugin, ctx)
        case None => Skip
        case Some(j) => if PluginVersionAdmits(e.plugin[j], ctx) then Accept else Reject;
    if byPlugin != Accept then byPlugin
    else if NameMatches(e, name) then Accept
    else Skip
  }

  /** A rule matches when the application version is inside its window and either it has
      no entries, or some entry accepts and every entry before it passes the turn on. */
  predicate RuleMatches(f: KnobNameFilter, name: string, ctx: LoadContext)
  {
    && NatronVersionAdmits(f, ctx)
    && (|| f.filters == []
        || exists k :: 0 <= k < |f.filters| && EntryVerdict(f.filters[k], name, ctx) == Accept &&
             forall j :: 0 <= j < k ==> EntryVerdict(f.filters[j], name, ctx) == Skip)
  }

  /** `matchKnobFilterInternal`: the version checks axis by axis, then the entries in
      order, each first through its plug-in list, then through its name predicate. */
  method MatchKnobFilterInternal(filter: KnobNameFilter, name: string, ctx: LoadContext) returns (matched: bool)
    ensures matched == RuleMatches(filter, name, ctx)
  {
    var natronVersionMajor, natronVersionMinor, natronVersionRevision :=
      ctx.natronVersionMajor, ctx.natronVersionMinor, ctx.natronVersionRevision;
    if natronVersionMajor != -1 && filter.natronVersionMin.major != -1 && natronVersionMajor < filter.natronVersionMin.major {
      return false;
    }
    if natronVersionMajor != -1 && filter.natronVersionMax.major != -1 && natronVersionMajor > filter.natronVersionMax.major {
      return false;
    }
    if natronVersionMinor != -1 && filter.natronVersionMin.minor != -1 && natronVersionMinor < filter.natronVersionMin.minor {
      return false;
    }
    if natronVersionMinor != -1 && filter.natronVersionMax.minor != -1 && natronVersionMinor > filter.natronVersionMax.minor {
      return false;
    }
    if natronVersionRevision != -1 && filter.natronVersionMin.rev != -1 && natronVersionRevision < filter.natronVersionMin.rev {
      return false;
    }
    if natronVersionRevision != -1 && filter.natronVersionMax.rev != -1 && natronVersionRevision > filter.natronVersionMax.rev {
      return false;
    }
    assert NatronVersionAdmits(filter, ctx);

    if filter.filters != [] {
      var k := 0;
      while k < |filter.filters|
        invariant 0 <= k <= |filter.filters|
        invariant forall j :: 0 <= j < k ==> EntryVerdict(filter.filters[j], name, ctx) == Skip
      {
        var entry := filter.filters[k];
        if entry.plugin != [] {
          var matchPlugin := false;
          var m := 0;
          while m < |entry.plugin|
            invariant 0 <= m <= |entry.plugin|
            invariant !matchPlugin
            invariant forall j :: 0 <= j < m ==> !PluginIdMatches(entry.plugin[j], ctx)
          {
            var p := entry.plugin[m];
            if !Compare(p.func, ctx.pluginID, p.pluginID) {
              m := m + 1;
              continue;
            }
            FirstIndexAt(entry.plugin, (q: PluginMatch) => PluginIdMatches(q, ctx), m);
            if ctx.pluginVersionMajor != -1 && p.pluginVersionMajorMin != -1 && ctx.pluginVersionMajor < p.pluginVersionMajorMin {
              assert EntryVerdict(entry, name, ctx) == Reject;
              return false;
            }
            if ctx.pluginVersionMajor != -1 && p.pluginVersionMajorMax != -1 && ctx.pluginVersionMajor > p.pluginVersionMajorMax {
              assert EntryVerdict(entry, name, ctx) == Reject;
              return false;
            }
            if ctx.pluginVersionMinor != -1 && p.pluginVersionMinorMin != -1 && ctx.pluginVersionMinor < p.pluginVersionMinorMin {
              assert EntryVerdict(entry, name, ctx) == Reject;
              return false;
            }
            if ctx.pluginVersionMinor != -1 && p.pluginVersionMinorMax != -1 && ctx.pluginVersionMinor > p.pluginVersionMinorMax {
              assert EntryVerdict(entry, name, ctx) == Reject;
              return false;
            }
            matchPlugin := true;
            break;
          }
          if !matchPlugin {
            assert FirstIdMatch(entry.plugin, ctx) == None;
            k := k + 1;
            continue;
          }
        }
        if Compare(entry.filter.func, name, entry.filter.nameToMatch) {
          assert EntryVerdict(entry, name, ctx) == Accept;
          return true;
        }
        k := k + 1;
      }
      return false;
    }
    return true;
  }

  // ---------------------------------------------------------------------------
  // First match wins (Engine/KnobSerialization.cpp:609-625)

  /** The replacement of the lowest-index matching rule, or None when no rule matches. */
  function CompatRename(filters: seq<KnobNameFilter>, name: string, ctx: LoadContext): (r: Option<string>)
    ensures r.Some? <==> exists i :: 0 <= i < |filters| && RuleMatches(filters[i], name, ctx)
    ensures r.Some? ==>
      exists i :: 0 <= i < |filters| && RuleMatches(filters[i], name, ctx) &&
        (forall j :: 0 <= j < i ==> !RuleMatches(filters[j], name, ctx)) &&
        r.value == filters[i].replacement
  {
    match FirstIndex(filters, (f: KnobNameFilter) => RuleMatches(f, name, ctx))
    case None => None
    case Some(i) => Some(filters[i].replacement)
  }

  /** `filterKnobNameCompat`: tries the rules in order and overwrites the name with the
      replacement of the first that matches; `newName` is `*name` after the call. */
  method FilterKnobNameCompat(filters: seq<KnobNameFilter>, ctx: LoadContext, name: string)
    returns (rewritten: bool, newName: string)
    ensures rewritten == CompatRename(filters, name, ctx).Some?
    ensures rewritten ==> newName == CompatRename(filters, name, ctx).value
    ensures !rewritten ==> newName == name
  {
    newName := name;
    var i := 0;
    while i < |filters|
      invariant 0 <= i <= |filters|
      invariant forall j :: 0 <= j < i ==> !RuleMatches(filters[j], name, ctx)
    {
      var filter := filters[i];
      var matched := MatchKnobFilterInternal(filter, newName, ctx);
      if !matched {
        i := i + 1;
        continue;
      } else {
        FirstIndexAt(filters, (f: KnobNameFilter) => RuleMatches(f, name, ctx), i);
        newName := filter.replacement;
        return true, newName;
      }
    }
    return false, newName;
  }

  // ---------------------------------------------------------------------------
  // Properties

  /** Rules are tried in declaration order: a list's result comes from its front part
      whenever some rule there matches, and from its back part only otherwise. */
  lemma {:induction false} CompatRenameAppend(front: seq<KnobNameFilter>, back: seq<KnobNameFilter>, name: string, ctx: LoadContext)
    ensures CompatRename(front + back, name, ctx) ==
      if CompatRename(front, name, ctx).Some? then CompatRename(front, name, ctx) else CompatRename(back, name, ctx)
  {
    var p := (f: KnobNameFilter) => RuleMatches(f, name, ctx);
    FirstIndexAppend(front, back, p);
    match FirstIndex(front, p)
    case Some(i) =>
      assert (front + back)[i] == front[i];
    case None =>
      match FirstIndex(back, p)
      case None =>
      case Some(j) =>
        assert (front + back)[|front| + j] == back[j];
  }

  /** A plug-in ID match whose plug-in version is outside its window fails the whole
      rule, whatever the later entries would have said. */
  lemma PluginVersionRejectionIsFinal(f: KnobNameFilter, name: string, ctx: LoadContext, k: nat)
    requires k < |f.filters|
    requires forall j :: 0 <= j < k ==> EntryVerdict(f.filters[j], name, ctx) == Skip
    requires f.filters[k].plugin != [] && FirstIdMatch(f.filters[k].plugin, ctx).Some?
    requires !PluginVersionAdmits(f.filters[k].plugin[FirstIdMatch(f.filters[k].plugin, ctx).value], ctx)
    ensures !RuleMatches(f, name, ctx)
  {
    assert EntryVerdict(f.filters[k], name, ctx) == Reject;
  }

  /** Every plug-in condition whose ID matches admits the plug-in version; conditions for
      other plug-ins are never version-tested, so they are unconstrained. */
  predicate NoPluginVersionRejects(f: KnobNameFilter, ctx: LoadContext)
  {
    forall k, j :: 0 <= k < |f.filters| && 0 <= j < |f.filters[k].plugin| && PluginIdMatches(f.filters[k].plugin[j], ctx) ==>
      PluginVersionAdmits(f.filters[k].plugin[j], ctx)
  }

  /** When no ID-matching plug-in condition rejects the version, a rule matches iff its application-version window
      admits and it has no entries, or some entry's name predicate holds and its plug-in
      list is empty or holds a plug-in whose ID matches. */
  lemma RuleMatchesWithoutVersionRejection(f: KnobNameFilter, name: string, ctx: LoadContext)
    requires NoPluginVersionRejects(f, ctx)
    ensures RuleMatches(f, name, ctx) <==>
      && NatronVersionAdmits(f, ctx)
      && (|| f.filters == []
          || exists k :: 0 <= k < |f.filters| && NameMatches(f.filters[k], name) &&
               (f.filters[k].plugin == [] || exists j :: 0 <= j < |f.filters[k].plugin| && PluginIdMatches(f.filters[k].plugin[j], ctx)))
  {
    var accepts := (e: KnobMatch) => EntryVerdict(e, name, ctx) == Accept;
    forall k | 0 <= k < |f.filters|
      ensures EntryVerdict(f.filters[k], name, ctx) != Reject
      ensures accepts(f.filters[k]) <==>
        (NameMatches(f.filters[k], name) &&
         (f.filters[k].plugin == [] || exists j :: 0 <= j < |f.filters[k].plugin| && PluginIdMatches(f.filters[k].plugin[j], ctx)))
    {
      var e := f.filters[k];
      if e.plugin != [] {
        var first := FirstIdMatch(e.plugin, ctx);
        if first.Some? {
          assert PluginVersionAdmits(e.plugin[first.value], ctx);
        } else {
          assert forall j :: 0 <= j < |e.plugin| ==> !PluginIdMatches(e.plugin[j], ctx);
        }
      }
    }
    if NatronVersionAdmits(f, ctx) && f.filters != [] {
      match FirstIndex(f.filters, accepts)
      case Some(k) =>
        assert forall j :: 0 <= j < k ==> EntryVerdict(f.filters[j], name, ctx) == Skip;
      case None =>
    }
  }

  /** The channel blocks of the table: a rule matches exactly the two listed names, case
      sensitively, and only for application major versions up to 1 (or unknown, -1). */
  lemma ChannelRuleMatches(replacement: string, shortName: string, longName: string, name: string, ctx: LoadContext)
    ensures RuleMatches(ChannelRule(replacement, shortName, longName), name, ctx) <==>
      ctx.natronVersionMajor <= 1 && (name == shortName || name == longName)
  {
    var f := ChannelRule(replacement, shortName, longName);
    assert f.filters == [KnobMatch([], FilterMatcher(shortName, ExactMatch)), KnobMatch([], FilterMatcher(longName, ExactMatch))];
    if ctx.natronVersionMajor <= 1 && name == longName && name != shortName {
      assert EntryVerdict(f.filters[0], name, ctx) == Skip;
      assert EntryVerdict(f.filters[1], name, ctx) == Accept;
    }
  }

  /** What the built-in table renames: `r`/`doRed`, `g`/`doGreen`, `b`/`doBlue` and
      `a`/`doAlpha`, exactly, to the four process-channel names. */
  function ChannelRename(name: string): Option<string>
  {
    if name == "r" || name == "doRed" then Some(ProcessR)
    else if name == "g" || name == "doGreen" then Some(ProcessG)
    else if name == "b" || name == "doBlue" then Some(ProcessB)
    else if name == "a" || name == "doAlpha" then Some(ProcessA)
    else None
  }

  /** The built-in table renames the legacy channel names when the application major
      version is at most 1 or unknown, and leaves every name alone otherwise. */
  lemma BuiltinFiltersRename(name: string, ctx: LoadContext)
    ensures CompatRename(BuiltinFilters(), name, ctx) ==
      if ctx.natronVersionMajor <= 1 then ChannelRename(name) else None
  {
    var t := BuiltinFilters();
    ChannelRuleMatches(ProcessR, "r", "doRed", name, ctx);
    ChannelRuleMatches(ProcessG, "g", "doGreen", name, ctx);
    ChannelRuleMatches(ProcessB, "b", "doBlue", name, ctx);
    ChannelRuleMatches(ProcessA, "a", "doAlpha", name, ctx);
    var p := (f: KnobNameFilter) => RuleMatches(f, name, ctx);
    if ctx.natronVersionMajor <= 1 {
      if name == "r" || name == "doRed" {
        FirstIndexAt(t, p, 0);
      } else if name == "g" || name == "doGreen" {
        FirstIndexAt(t, p, 1);
      } else if name == "b" || name == "doBlue" {
        FirstIndexAt(t, p, 2);
      } else if name == "a" || name == "doAlpha" {
        FirstIndexAt(t, p, 3);
      }
    }
  }

  /** `filterKnobNameCompat("anyplugin", -1, -1, 1, 0, 0, "r")` renames `r`; with
      application major version 2 the name is left as it is. */
  lemma LegacyRedExample()
    ensures CompatRename(BuiltinFilters(), "r", LoadContext("anyplugin", -1, -1, 1, 0, 0)) == Some(ProcessR)
    ensures CompatRename(BuiltinFilters(), "r", LoadContext("anyplugin", -1, -1, 2, 0, 0)) == None
  {
    BuiltinFiltersRename("r", LoadContext("anyplugin", -1, -1, 1, 0, 0));
    BuiltinFiltersRename("r", LoadContext("anyplugin", -1, -1, 2, 0, 0));
  }
}
