/**
 * The record shapes of types.ts: the closed WasteCategory enumeration, one
 * identified item, and one stored scan.
 */
module Types {
  import opened Wrappers
  import opened JsonValues

  /** The six members of the WasteCategory enum. */
  datatype WasteCategory = Biodegradable | Recyclable | NonRecyclable | Hazardous | EWaste | Unknown

  /** The string value each enum member stands for at run time. */
  function Label(c: WasteCategory): string
  {
    match c
    case Biodegradable => "Biodegradable"
    case Recyclable => "Recyclable"
    case NonRecyclable => "Non-Recyclable"
    case Hazardous => "Hazardous"
    case EWaste => "E-Waste"
    case Unknown => "Unknown"
  }

  const AllCategories: seq<WasteCategory> :=
    [Biodegradable, Recyclable, NonRecyclable, Hazardous, EWaste, Unknown]

  /** The member whose label is `s`, if any: which `COLORS` entry the property read `COLORS[s]` finds. */
  function CategoryOfLabel(s: string): (r: Option<WasteCategory>)
    ensures r.Some? ==> Label(r.value) == s
    ensures r.None? ==> forall c :: Label(c) != s
  {
    if s == "Biodegradable" then Some(Biodegradable)
    else if s == "Recyclable" then Some(Recyclable)
    else if s == "Non-Recyclable" then Some(NonRecyclable)
    else if s == "Hazardous" then Some(Hazardous)
    else if s == "E-Waste" then Some(EWaste)
    else if s == "Unknown" then Some(Unknown)
    else None
  }

  /** The enum has exactly six members, listed once each, with pairwise distinct labels. */
  lemma CategoriesAreSixDistinctLabels()
    ensures |AllCategories| == 6
    ensures forall c :: c in AllCategories
    ensures forall i, j :: 0 <= i < j < |AllCategories| ==> Label(AllCategories[i]) != Label(AllCategories[j])
  {
    forall c ensures c in AllCategories {
      match c
      case Biodegradable => assert AllCategories[0] == c;
      case Recyclable => assert AllCategories[1] == c;
      case NonRecyclable => assert AllCategories[2] == c;
      case Hazardous => assert AllCategories[3] == c;
      case EWaste => assert AllCategories[4] == c;
      case Unknown => assert AllCategories[5] == c;
    }
  }

  /** Label is injective: a label names one member only. */
  lemma LabelInjective(a: WasteCategory, b: WasteCategory)
    ensures Label(a) == Label(b) <==> a == b
  {
  }

  /**
   * One identified object. `category` is always one of the six members. The
   * other fields hold whatever the normaliser stored there: the TypeScript
   * interface declares strings, a number and a string array, but nothing
   * checks this at run time, so the model keeps the run-time JSON value and
   * states the declared shape as WellTyped. `funFact` is the only optional
   * field.
   */
  datatype WasteItem = WasteItem(
    itemName: Json,
    material: Json,
    category: WasteCategory,
    confidence: Json,
    disposalInstruction: Json,
    recyclingTips: Json,
    funFact: Option<Json>)

  /** An array whose elements are all strings: `string[]`. */
  predicate IsStringArray(v: Json)
  {
    v.JArray? && forall k :: 0 <= k < |v.elems| ==> v.elems[k].JString?
  }

  /** The shape the WasteItem interface declares. */
  predicate WellTyped(w: WasteItem)
  {
    && w.itemName.JString?
    && w.material.JString?
    && w.confidence.JNumber?
    && w.disposalInstruction.JString?
    && IsStringArray(w.recyclingTips)
    && (w.funFact.Some? ==> w.funFact.value.JString?)
  }

  /** One stored scan: its items plus an id string and a millisecond timestamp. */
  datatype ScanResult = ScanResult(id: string, timestamp: nat, items: seq<WasteItem>)
}
