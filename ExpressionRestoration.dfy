/** Re-installing saved expressions after a load: the script-name rewriting that
    `QString::replace` performs and `KnobSerialization::restoreExpressions`
    (Engine/KnobSerialization.cpp:277-300). */
module ExpressionRestoration {
  import opened Common
  import opened StringMatchers
  import opened KnobGraph
  import opened LinkRestoration

  // ---------------------------------------------------------------------------
  // Replacing every occurrence of a name

  /** `QString::replace(before, after)`: scans left to right and replaces each occurrence of
      `before` that does not overlap an earlier replaced one; the replacement text is not
      scanned again. An empty `before` is treated as matching nothing. */
  function ReplaceAll(s: string, before: string, after: string): string
    decreases |s|
  {
    if before == [] || |s| < |before| then s
    else if s[..|before|] == before then after + ReplaceAll(s[|before|..], before, after)
    else [s[0]] + ReplaceAll(s[1..], before, after)
  }

  /** `before` occurs nowhere in `s`. */
  predicate Absent(s: string, before: string)
  {
    forall i :: 0 <= i <= |s| ==> !OccursAt(s, before, i)
  }

  /** A non-empty name whose first character does not appear in `s` occurs nowhere in it. */
  lemma AbsentWithoutFirstChar(s: string, before: string)
    requires before != [] && forall i :: 0 <= i < |s| ==> s[i] != before[0]
    ensures Absent(s, before)
  {
    forall i | 0 <= i <= |s| ensures !OccursAt(s, before, i) {
      if i + |before| <= |s| {
        assert s[i..i + |before|][0] == s[i];
      }
    }
  }

  /** A string free of the name is left as it is. */
  lemma {:induction false} ReplaceAllAbsent(s: string, before: string, after: string)
    requires Absent(s, before)
    ensures ReplaceAll(s, before, after) == s
    decreases |s|
  {
    if before != [] && |s| >= |before| {
      assert !OccursAt(s, before, 0);
      assert s[..|before|] != before;
      forall i | 0 <= i <= |s[1..]| ensures !OccursAt(s[1..], before, i) {
        assert !OccursAt(s, before, i + 1);
        if i + |before| <= |s[1..]| {
          assert s[1..][i..i + |before|] == s[i + 1..i + 1 + |before|];
        }
      }
      ReplaceAllAbsent(s[1..], before, after);
    }
  }

  /** Replacing a name by itself changes nothing. */
  lemma {:induction false} ReplaceAllIdentity(s: string, name: string)
    ensures ReplaceAll(s, name, name) == s
    decreases |s|
  {
    if name != [] && |s| >= |name| {
      if s[..|name|] == name {
        ReplaceAllIdentity(s[|name|..], name);
        assert name + s[|name|..] == s;
      } else {
        ReplaceAllIdentity(s[1..], name);
        assert [s[0]] + s[1..] == s;
      }
    }
  }

  /** A replacement as long as the name it replaces keeps the length of the text. */
  lemma {:induction false} ReplaceAllSameLength(s: string, before: string, after: string)
    requires |before| == |after|
    ensures |ReplaceAll(s, before, after)| == |s|
    decreases |s|
  {
    if before != [] && |s| >= |before| {
      if s[..|before|] == before {
        ReplaceAllSameLength(s[|before|..], before, after);
      } else {
        ReplaceAllSameLength(s[1..], before, after);
      }
    }
  }

  /** `i` is the first position where `before` occurs in `s`. */
  predicate FirstOccurrence(s: string, before: string, i: nat)
  {
    OccursAt(s, before, i) && forall j :: 0 <= j < i ==> !OccursAt(s, before, j)
  }

  /** Dropping the first character moves a later first occurrence one position down. */
  lemma FirstOccurrenceShift(s: string, before: string, i: nat)
    requires 0 < i && FirstOccurrence(s, before, i)
    ensures FirstOccurrence(s[1..], before, i - 1)
  {
    var t := s[1..];
    assert t[i - 1..i - 1 + |before|] == s[i..i + |before|];
    forall j | 0 <= j < i - 1 ensures !OccursAt(t, before, j) {
      assert !OccursAt(s, before, j + 1);
      if j + |before| <= |t| {
        assert t[j..j + |before|] == s[j + 1..j + 1 + |before|];
      }
    }
  }

  /** A name at the front of the text is replaced, and the scan goes on right after it. */
  lemma ReplaceAllAtFront(name: string, rest: string, after: string)
    requires name != []
    ensures ReplaceAll(name + rest, name, after) == after + ReplaceAll(rest, name, after)
  {
    var s := name + rest;
    assert s[..|name|] == name && s[|name|..] == rest;
  }

  /** Where the name does not start the text, its first character is kept and the scan
      moves one position on. */
  lemma ReplaceAllSkipFirst(s: string, before: string, after: string)
    requires before != [] && |s| >= |before| && !OccursAt(s, before, 0)
    ensures ReplaceAll(s, before, after) == [s[0]] + ReplaceAll(s[1..], before, after)
  {
    assert s[..|before|] != before;
  }

  /** Putting back the first character of `s` in front of a split of `s[1..]`. */
  lemma PrependToPrefix(s: string, k: nat, middle: string, tail: string)
    requires 0 < k <= |s|
    ensures [s[0]] + (s[1..][..k - 1] + middle + tail) == s[..k] + middle + tail
  {
    assert [s[0]] + s[1..][..k - 1] == s[..k];
  }

  /** The scan replaces the first occurrence of a non-empty name, at position `i`, and goes
      on right after it. */
  lemma {:induction false} ReplaceAllAt(s: string, before: string, after: string, i: nat)
    requires before != [] && FirstOccurrence(s, before, i)
    ensures ReplaceAll(s, before, after) == s[..i] + after + ReplaceAll(s[i + |before|..], before, after)
    decreases i
  {
    var rest := ReplaceAll(s[i + |before|..], before, after);
    if i == 0 {
      assert s == before + s[|before|..] by {
        assert s[..|before|] == before;
      }
      ReplaceAllAtFront(before, s[|before|..], after);
      assert s[..i] + after + rest == after + rest;
    } else {
      var t := s[1..];
      ReplaceAllSkipFirst(s, before, after);
      assert ReplaceAll(t, before, after) == t[..i - 1] + after + rest by {
        FirstOccurrenceShift(s, before, i);
        ReplaceAllAt(t, before, after, i - 1);
        assert t[i - 1 + |before|..] == s[i + |before|..];
      }
      PrependToPrefix(s, i, after, rest);
    }
  }

  /** What the scan does, in terms of `std::string::find`: with no occurrence of a non-empty
      name the text is returned as it is; otherwise the first occurrence is replaced and the
      scan goes on right after it. */
  lemma ReplaceAllAtFirstOccurrence(s: string, before: string, after: string)
    requires before != []
    ensures FindFrom(s, before, 0).None? ==> ReplaceAll(s, before, after) == s
    ensures FindFrom(s, before, 0).Some? ==>
      var i := FindFrom(s, before, 0).value;
      ReplaceAll(s, before, after) == s[..i] + after + ReplaceAll(s[i + |before|..], before, after)
  {
    var found := FindFrom(s, before, 0);
    if found.None? {
      assert Absent(s, before);
      ReplaceAllAbsent(s, before, after);
    } else {
      assert FirstOccurrence(s, before, found.value);
      ReplaceAllAt(s, before, after, found.value);
    }
  }

  // ---------------------------------------------------------------------------
  // Renaming script names in an expression

  /** The expression after the mapping's entries have been applied one after the other,
      in the mapping's iteration order. */
  function RenameScriptNames(expr: string, mapping: ScriptNameMapping): string
    decreases |mapping|
  {
    if mapping == [] then expr
    else
      var last := mapping[|mapping| - 1];
      ReplaceAll(RenameScriptNames(expr, mapping[..|mapping| - 1]), last.0, last.1)
  }

  /** An expression that mentions none of the renamed nodes is restored verbatim. */
  lemma {:induction false} RenameUnmentioned(expr: string, mapping: ScriptNameMapping)
    requires forall k :: 0 <= k < |mapping| ==> Absent(expr, mapping[k].0)
    ensures RenameScriptNames(expr, mapping) == expr
    decreases |mapping|
  {
    if mapping != [] {
      var front := mapping[..|mapping| - 1];
      RenameUnmentioned(expr, front);
      ReplaceAllAbsent(expr, mapping[|mapping| - 1].0, mapping[|mapping| - 1].1);
    }
  }

  /** A mapping that sends every name to itself leaves every expression unchanged. */
  lemma {:induction false} RenameByIdentityMapping(expr: string, mapping: ScriptNameMapping)
    requires forall k :: 0 <= k < |mapping| ==> mapping[k].0 == mapping[k].1
    ensures RenameScriptNames(expr, mapping) == expr
    decreases |mapping|
  {
    if mapping != [] {
      RenameByIdentityMapping(expr, mapping[..|mapping| - 1]);
      ReplaceAllIdentity(expr, mapping[|mapping| - 1].0);
    }
  }

  /** Renaming with a one-entry mapping replaces the entry's name in the text. */
  lemma RenameSingle(expr: string, oldName: string, newName: string)
    ensures RenameScriptNames(expr, [(oldName, newName)]) == ReplaceAll(expr, oldName, newName)
  {
    assert [(oldName, newName)][..0] == [];
  }

  /** A one-entry mapping whose name starts the text and occurs nowhere after it renames
      exactly that front reference. */
  lemma RenameFront(name: string, rest: string, newName: string)
    requires name != [] && Absent(rest, name)
    ensures RenameScriptNames(name + rest, [(name, newName)]) == newName + rest
  {
    RenameSingle(name + rest, name, newName);
    ReplaceAllAtFront(name, rest, newName);
    ReplaceAllAbsent(rest, name, newName);
  }

  /** A renamed node is renamed in the expression text. */
  lemma RenameOneReference()
    ensures RenameScriptNames("Blur1.size.get()", [("Blur1", "Blur2")]) == "Blur2.size.get()"
  {
    AbsentWithoutFirstChar(".size.get()", "Blur1");
    RenameFront("Blur1", ".size.get()", "Blur2");
    assert "Blur1" + ".size.get()" == "Blur1.size.get()";
    assert "Blur2" + ".size.get()" == "Blur2.size.get()";
  }

  /** Replacement is textual: a node whose name merely starts with a renamed name is
      rewritten too ("Blur10" becomes "Blur20" when "Blur1" is renamed "Blur2"). */
  lemma RenameHitsLongerNames()
    ensures RenameScriptNames("Blur10.size", [("Blur1", "Blur2")]) == "Blur20.size"
  {
    AbsentWithoutFirstChar("0.size", "Blur1");
    RenameFront("Blur1", "0.size", "Blur2");
    assert "Blur1" + "0.size" == "Blur10.size";
    assert "Blur2" + "0.size" == "Blur20.size";
  }

  /** The first step of `RenameTwoReferences`: "Blur1" is replaced at the front. */
  lemma RenameTwoReferencesFirstStep()
    ensures ReplaceAll("Blur1+Grade1", "Blur1", "Blur2") == "Blur2+Grade1"
  {
    AbsentWithoutFirstChar("+Grade1", "Blur1");
    ReplaceAllAtFront("Blur1", "+Grade1", "Blur2");
    ReplaceAllAbsent("+Grade1", "Blur1", "Blur2");
    assert "Blur1" + "+Grade1" == "Blur1+Grade1";
    assert "Blur2" + "+Grade1" == "Blur2+Grade1";
  }

  /** The second step of `RenameTwoReferences`: "Grade1" is found after "Blur2+" and replaced. */
  lemma RenameTwoReferencesSecondStep()
    ensures ReplaceAll("Blur2+Grade1", "Grade1", "Grade2") == "Blur2+Grade2"
  {
    var renamed := "Blur2+Grade1";
    assert renamed[6..12] == "Grade1" by {
      assert renamed == "Blur2+" + "Grade1";
    }
    forall j | 0 <= j < 6 ensures !OccursAt(renamed, "Grade1", j) {
      assert renamed[j..j + 6][0] == renamed[j];
    }
    ReplaceAllAt(renamed, "Grade1", "Grade2", 6);
    assert renamed[..6] == "Blur2+" && renamed[12..] == [];
  }

  /** Two renamed nodes are both renamed, one entry after the other. */
  lemma RenameTwoReferences()
    ensures RenameScriptNames("Blur1+Grade1", [("Blur1", "Blur2"), ("Grade1", "Grade2")]) == "Blur2+Grade2"
  {
    var mapping := [("Blur1", "Blur2"), ("Grade1", "Grade2")];
    assert mapping[..1] == [("Blur1", "Blur2")];
    RenameSingle("Blur1+Grade1", "Blur1", "Blur2");
    RenameTwoReferencesFirstStep();
    RenameTwoReferencesSecondStep();
  }

  // ---------------------------------------------------------------------------
  // restoreExpressions

  /** The diagnostic `writeToErrorLog_mt_safe` receives: the parameter's name and the
      message (the timestamp is not modelled). */
  datatype LogEntry = LogEntry(knobName: string, message: string)

  const RestoreFailurePrefix := "Failed to restore expression: "

  /** What happened at each of the first `dims` dimensions if every one were attempted:
      None when the saved text is empty (the dimension is skipped), otherwise the engine's
      verdict on the renamed text. */
  function Attempts(ser: KnobSerialization, mapping: ScriptNameMapping, engine: ExpressionEngine, dims: nat)
    : (rs: seq<Option<InstallOutcome>>)
    requires dims <= |ser.expressions|
    ensures |rs| == dims
  {
    seq(dims, i requires 0 <= i < dims =>
      if ser.expressions[i].0 == [] then None
      else Some(engine(i, RenameScriptNames(ser.expressions[i].0, mapping), ser.expressions[i].1)))
  }

  predicate IsFailure(a: Option<InstallOutcome>)
  {
    a.Some? && a.value.Failed?
  }

  /** The expressions installed on dimensions 0..n-1 when none of them failed: every
      dimension with non-empty saved text gets its renamed text and its flag. */
  function InstalledExpressions(ser: KnobSerialization, mapping: ScriptNameMapping, n: nat): map<int, (string, bool)>
    requires n <= |ser.expressions|
  {
    map i | 0 <= i < n && ser.expressions[i].0 != [] :: (RenameScriptNames(ser.expressions[i].0, mapping), ser.expressions[i].1)
  }

  lemma InstalledExpressionsStep(ser: KnobSerialization, mapping: ScriptNameMapping, i: nat)
    requires i < |ser.expressions|
    ensures InstalledExpressions(ser, mapping, i + 1) ==
      if ser.expressions[i].0 == [] then InstalledExpressions(ser, mapping, i)
      else InstalledExpressions(ser, mapping, i)[i := (RenameScriptNames(ser.expressions[i].0, mapping), ser.expressions[i].1)]
  {
  }

  /** The installed expressions up to `n` are exactly those of the dimensions below `n`
      whose saved text is non-empty. */
  lemma InstalledExpressionsDomain(ser: KnobSerialization, mapping: ScriptNameMapping, n: nat, d: int)
    requires n <= |ser.expressions|
    ensures d in InstalledExpressions(ser, mapping, n) <==> 0 <= d < n && ser.expressions[d].0 != []
  {
  }

  /** The renaming loop of `restoreExpressions`: each entry of the mapping, in order,
      replaces its old name by its new one in the text. */
  method RenameExpression(text: string, mapping: ScriptNameMapping) returns (expr: string)
    ensures expr == RenameScriptNames(text, mapping)
  {
    expr := text;
    var j := 0;
    while j < |mapping|
      invariant 0 <= j <= |mapping|
      invariant expr == RenameScriptNames(text, mapping[..j])
    {
      assert mapping[..j + 1][..j] == mapping[..j];
      expr := ReplaceAll(expr, mapping[j].0, mapping[j].1);
      j := j + 1;
    }
    assert mapping[..|mapping|] == mapping;
  }

  /** `restoreExpressions`. Dimensions up to the smaller of the two dimension counts are
      visited in order; empty texts are skipped; the rest are renamed and handed to the
      engine. The try block encloses the whole loop, so the first failure is logged under
      the parameter's name and ends the restoration of this parameter. */
  method RestoreExpressions(ser: KnobSerialization, knob: LiveKnob, mapping: ScriptNameMapping, engine: ExpressionEngine)
    returns (logged: Option<LogEntry>)
    requires Min(knob.dimension, ser.dimension) <= |ser.expressions|
    modifies knob
    ensures knob.slaves == old(knob.slaves) && knob.aliasTarget == old(knob.aliasTarget)
    ensures
      var attempts := Attempts(ser, mapping, engine, Min(knob.dimension, ser.dimension));
      match FirstIndex(attempts, IsFailure)
      case None =>
        && logged == None
        && knob.expressions == old(knob.expressions) + InstalledExpressions(ser, mapping, Min(knob.dimension, ser.dimension))
      case Some(f) =>
        && logged == Some(LogEntry(knob.name, RestoreFailurePrefix + attempts[f].value.what))
        && knob.expressions == old(knob.expressions) + InstalledExpressions(ser, mapping, f)
  {
    var dims := Min(knob.dimension, ser.dimension);
    ghost var attempts := Attempts(ser, mapping, engine, dims);
    logged := None;
    var i := 0;
    assert InstalledExpressions(ser, mapping, 0) == map[];
    assert knob.expressions == old(knob.expressions) + map[];
    while i < dims
      invariant 0 <= i <= dims
      invariant forall j :: 0 <= j < i ==> !IsFailure(attempts[j])
      invariant knob.expressions == old(knob.expressions) + InstalledExpressions(ser, mapping, i)
      invariant knob.slaves == old(knob.slaves) && knob.aliasTarget == old(knob.aliasTarget)
    {
      InstalledExpressionsStep(ser, mapping, i);
      ghost var before := InstalledExpressions(ser, mapping, i);
      var attempt := RestoreDimensionExpression(ser, knob, mapping, engine, i);
      assert attempts[i] == attempt;
      if attempt.Some? && attempt.value.Failed? {
        FirstIndexAt(attempts, IsFailure, i);
        logged := Some(LogEntry(knob.name, RestoreFailurePrefix + attempt.value.what));
        return;
      }
      if ser.expressions[i].0 != [] {
        UnionUpdate(old(knob.expressions), before, i, (RenameScriptNames(ser.expressions[i].0, mapping), ser.expressions[i].1));
      }
      i := i + 1;
    }
  }

  /** One iteration of the dimension loop of `restoreExpressions`: an empty saved text is
      skipped; otherwise the renamed text is handed to the engine, and it is installed on
      dimension `i` unless the engine rejects it. */
  method RestoreDimensionExpression(ser: KnobSerialization, knob: LiveKnob, mapping: ScriptNameMapping,
                                    engine: ExpressionEngine, i: nat)
    returns (attempt: Option<InstallOutcome>)
    requires i < |ser.expressions|
    modifies knob
    ensures attempt ==
      if ser.expressions[i].0 == [] then None
      else Some(engine(i, RenameScriptNames(ser.expressions[i].0, mapping), ser.expressions[i].1))
    ensures knob.expressions ==
      if ser.expressions[i].0 != [] && !IsFailure(attempt)
      then old(knob.expressions)[i := (RenameScriptNames(ser.expressions[i].0, mapping), ser.expressions[i].1)]
      else old(knob.expressions)
    ensures knob.slaves == old(knob.slaves) && knob.aliasTarget == old(knob.aliasTarget)
  {
    var text := ser.expressions[i].0;
    if text == [] {
      return None;
    }
    var expr := RenameExpression(text, mapping);
    var outcome := knob.RestoreExpression(i, expr, ser.expressions[i].1, engine);
    attempt := Some(outcome);
  }

  /** When the engine accepts everything, every dimension with saved text ends up with its
      renamed expression and nothing is logged. */
  lemma AllAcceptedRestoresEverything(ser: KnobSerialization, mapping: ScriptNameMapping, engine: ExpressionEngine, dims: nat)
    requires dims <= |ser.expressions|
    requires forall d: int, e: string, h: bool :: engine(d, e, h).Installed?
    ensures FirstIndex(Attempts(ser, mapping, engine, dims), IsFailure) == None
  {
    var attempts := Attempts(ser, mapping, engine, dims);
    forall j | 0 <= j < |attempts| ensures !IsFailure(attempts[j]) {
      if ser.expressions[j].0 != [] {
        var text, hasRetVar := RenameScriptNames(ser.expressions[j].0, mapping), ser.expressions[j].1;
        var outcome := engine(j, text, hasRetVar);
        assert outcome.Installed?;
        assert attempts[j] == Some(outcome);
      }
    }
  }
}
