/** `KnobSerialization::createKnob` (Engine/KnobSerialization.cpp:141-184): a closed
    dispatch from a saved type name to a parameter kind. */
module KnobFactory {
  import opened Common

  /** The fifteen parameter classes the factory knows. */
  datatype KnobKind =
    | IntKnob | BoolKnob | DoubleKnob | ChoiceKnob | StringKnob
    | ParametricKnob | ColorKnob | PathKnob | LayersKnob | FileKnob
    | OutputFileKnob | ButtonKnob | SeparatorKnob | GroupKnob | PageKnob

  /** `typeNameStatic()` of each class, as Engine/KnobTypes.cpp (not part of this model)
      spells them; the proofs only use that they are pairwise distinct. */
  function TypeName(k: KnobKind): string
  {
    match k
    case IntKnob => "Int"
    case BoolKnob => "Bool"
    case DoubleKnob => "Double"
    case ChoiceKnob => "Choice"
    case StringKnob => "String"
    case ParametricKnob => "Parametric"
    case ColorKnob => "Color"
    case PathKnob => "Path"
    case LayersKnob => "Layers"
    case FileKnob => "InputFile"
    case OutputFileKnob => "OutputFile"
    case ButtonKnob => "Button"
    case SeparatorKnob => "Separator"
    case GroupKnob => "Group"
    case PageKnob => "Page"
  }

  /** A freshly created, unbound parameter: its kind and its number of dimensions. */
  datatype CreatedKnob = CreatedKnob(kind: KnobKind, dimension: int)

  /** The if-chain of `createKnob`. An unknown type name yields no parameter. */
  function CreateKnob(typeName: string, dimension: int): (r: Option<CreatedKnob>)
    ensures r.Some? ==> TypeName(r.value.kind) == typeName && r.value.dimension == dimension
    ensures r.None? <==> forall k: KnobKind :: TypeName(k) != typeName
  {
    if typeName == TypeName(IntKnob) then Some(CreatedKnob(IntKnob, dimension))
    else if typeName == TypeName(BoolKnob) then Some(CreatedKnob(BoolKnob, dimension))
    else if typeName == TypeName(DoubleKnob) then Some(CreatedKnob(DoubleKnob, dimension))
    else if typeName == TypeName(ChoiceKnob) then Some(CreatedKnob(ChoiceKnob, dimension))
    else if typeName == TypeName(StringKnob) then Some(CreatedKnob(StringKnob, dimension))
    else if typeName == TypeName(ParametricKnob) then Some(CreatedKnob(ParametricKnob, dimension))
    else if typeName == TypeName(ColorKnob) then Some(CreatedKnob(ColorKnob, dimension))
    else if typeName == TypeName(PathKnob) then Some(CreatedKnob(PathKnob, dimension))
    else if typeName == TypeName(LayersKnob) then Some(CreatedKnob(LayersKnob, dimension))
    else if typeName == TypeName(FileKnob) then Some(CreatedKnob(FileKnob, dimension))
    else if typeName == TypeName(OutputFileKnob) then Some(CreatedKnob(OutputFileKnob, dimension))
    else if typeName == TypeName(ButtonKnob) then Some(CreatedKnob(ButtonKnob, dimension))
    else if typeName == TypeName(SeparatorKnob) then Some(CreatedKnob(SeparatorKnob, dimension))
    else if typeName == TypeName(GroupKnob) then Some(CreatedKnob(GroupKnob, dimension))
    else if typeName == TypeName(PageKnob) then Some(CreatedKnob(PageKnob, dimension))
    else None
  }

  /** Saving a parameter's type name and creating from it gives back a parameter of the
      same kind with the requested dimension count. */
  lemma CreateKnobRoundTrip(k: KnobKind, dimension: int)
    ensures CreateKnob(TypeName(k), dimension) == Some(CreatedKnob(k, dimension))
  {
    var r := CreateKnob(TypeName(k), dimension);
    assert r.Some? by {
      assert !(forall j: KnobKind :: TypeName(j) != TypeName(k));
    }
    TypeNameInjective(r.value.kind, k);
  }

  /** No two kinds share a type name, so the dispatch is unambiguous. */
  lemma TypeNameInjective(k1: KnobKind, k2: KnobKind)
    requires TypeName(k1) == TypeName(k2)
    ensures k1 == k2
  {
  }
}
