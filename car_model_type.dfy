/** The closed set of car models (Models/CarModelType.cs). */
module CarModels {
  import opened Wrappers

  /** The four variants, in declaration order. */
  datatype CarModel = Sedan | SUV | Offroad | Sport

  /** Declaration order: what Enum.GetValues and Enum.GetNames enumerate. */
  const AllModels: seq<CarModel> := [Sedan, SUV, Offroad, Sport]

  /** The implicit underlying value of an enum member: its position in the declaration. */
  function Index(m: CarModel): (i: nat)
    ensures i < |AllModels| && AllModels[i] == m
  {
    match m
    case Sedan => 0
    case SUV => 1
    case Offroad => 2
    case Sport => 3
  }

  /** `Enum.IsDefined` followed by the cast `(CarModelType)i`: only 0..3 denote a variant. */
  function FromIndex(i: int): (r: Option<CarModel>)
    ensures r.Some? <==> 0 <= i < |AllModels|
    ensures r.Some? ==> Index(r.value) == i
  {
    if i == 0 then Some(Sedan)
    else if i == 1 then Some(SUV)
    else if i == 2 then Some(Offroad)
    else if i == 3 then Some(Sport)
    else None
  }

  lemma IndexRoundTrip(m: CarModel)
    ensures FromIndex(Index(m)) == Some(m)
  {
  }

  /** `ToString()` of an enum member: its canonical name. */
  function Name(m: CarModel): (s: string)
    ensures |s| > 0
  {
    match m
    case Sedan => "Sedan"
    case SUV => "SUV"
    case Offroad => "Offroad"
    case Sport => "Sport"
  }

  lemma NameInjective(a: CarModel, b: CarModel)
    ensures Name(a) == Name(b) <==> a == b
  {
  }

  /** `Enum.GetNames`: the canonical names in declaration order. */
  function ModelNames(): (names: seq<string>)
    ensures |names| == |AllModels|
    ensures forall i | 0 <= i < |AllModels| :: names[i] == Name(AllModels[i])
  {
    seq(|AllModels|, i requires 0 <= i < |AllModels| => Name(AllModels[i]))
  }

  /** `string.Join(separator, parts)`. */
  function Join(separator: string, parts: seq<string>): string {
    if parts == [] then ""
    else if |parts| == 1 then parts[0]
    else parts[0] + separator + Join(separator, parts[1..])
  }

  /** The list of valid names that the invalid-name error quotes. */
  function ValidModelNames(): string {
    Join(", ", ModelNames())
  }

  lemma ValidModelNamesText()
    ensures ValidModelNames() == "Sedan, SUV, Offroad, Sport"
  {
    var names := ModelNames();
    assert names == ["Sedan", "SUV", "Offroad", "Sport"];
    assert Join(", ", names[3..]) == "Sport";
    assert Join(", ", names[2..]) == "Offroad, Sport";
    assert Join(", ", names[1..]) == "SUV, Offroad, Sport";
  }

  /** There are exactly four variants and the declaration lists each once. */
  lemma FourVariants(m: CarModel)
    ensures |AllModels| == 4
    ensures m in AllModels
    ensures forall i, j | 0 <= i < j < |AllModels| :: AllModels[i] != AllModels[j]
  {
  }
}
