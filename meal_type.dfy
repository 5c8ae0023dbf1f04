/** The JSON codec of MealType (internal/model/meal_record.go): encoded as one of four
    names, decoded from a name or from any integer. */
module MealTypes {
  import opened Outcomes
  import opened Model

  const Breakfast: MealType := 1
  const Lunch: MealType := 2
  const Dinner: MealType := 3
  const Snack: MealType := 4

  /** Name to code, used by decoding. */
  const MealTypeValues: map<string, MealType> :=
    map["breakfast" := Breakfast, "lunch" := Lunch, "dinner" := Dinner, "snack" := Snack]

  /** Code to name, used by encoding. */
  const MealTypeStrings: map<MealType, string> :=
    map[Breakfast := "breakfast", Lunch := "lunch", Dinner := "dinner", Snack := "snack"]

  /** Go's `int` is 64 bits wide: a JSON integer outside this range does not decode into it. */
  const GoIntMin: int := -0x8000_0000_0000_0000
  const GoIntMax: int := 0x7fff_ffff_ffff_ffff

  /** A JSON value as far as the codec looks at it. `JOther` stands for objects, arrays,
      booleans and numbers that are not integers. */
  datatype Json = JString(s: string) | JInteger(n: int) | JNull | JOther

  datatype CodecError =
    | UnknownMealType        // encoding a code outside 1..4
    | UnknownMealTypeName    // decoding a string that is not one of the four names
    | NotStringOrInteger     // decoding a value that is neither a string nor an int

  /** The result of decoding into the receiver `*m`: its value afterwards and the error returned. */
  datatype Decoded = Decoded(target: MealType, err: Option<CodecError>)

  /** MarshalJSON: the name of a known code, as a JSON string. */
  function MarshalJSON(m: MealType): (r: Result<Json, CodecError>)
    ensures r.Ok? <==> Breakfast <= m <= Snack
    ensures r.Ok? ==> r.value.JString? && r.value.s in MealTypeValues
    ensures r.Ok? ==> MealTypeValues[r.value.s] == m
    ensures r.Err? ==> r.error == UnknownMealType
  {
    if m in MealTypeStrings then Ok(JString(MealTypeStrings[m])) else Err(UnknownMealType)
  }

  /** UnmarshalJSON with receiver value `m`. A JSON string must be one of the four names;
      otherwise the value is read as a Go int and stored without a range check. JSON null
      reads as the empty string, which is not a name. */
  function UnmarshalJSON(data: Json, m: MealType): (r: Decoded)
    ensures r.err.Some? ==> r.target == m
    ensures data.JString? ==> (r.err.None? <==> data.s in MealTypeValues)
    ensures data.JInteger? ==> (r.err.None? <==> GoIntMin <= data.n <= GoIntMax)
    ensures r.err.None? ==> data.JString? || data.JInteger?
    ensures data.JString? && r.err.None? ==> r.target == MealTypeValues[data.s]
    ensures data.JInteger? && r.err.None? ==> r.target == data.n
  {
    match data
    case JString(s) =>
      if s in MealTypeValues then Decoded(MealTypeValues[s], None)
      else Decoded(m, Some(UnknownMealTypeName))
    case JNull =>
      // null leaves the string empty and raises no JSON error; the name lookup of "" fails
      Decoded(m, Some(UnknownMealTypeName))
    case JInteger(n) =>
      if GoIntMin <= n <= GoIntMax then Decoded(n, None) else Decoded(m, Some(NotStringOrInteger))
    case JOther =>
      Decoded(m, Some(NotStringOrInteger))
  }

  /** The two tables are inverse to each other. */
  lemma MapsAreInverse()
    ensures forall name :: name in MealTypeValues ==>
      MealTypeValues[name] in MealTypeStrings && MealTypeStrings[MealTypeValues[name]] == name
    ensures forall m :: m in MealTypeStrings ==>
      MealTypeStrings[m] in MealTypeValues && MealTypeValues[MealTypeStrings[m]] == m
    ensures MealTypeValues.Keys == {"breakfast", "lunch", "dinner", "snack"}
    ensures MealTypeStrings.Keys == {1, 2, 3, 4}
  {
  }

  /** Encoding a known code and decoding the result gives the code back, whatever the receiver held. */
  lemma DecodeEncode(m: MealType, receiver: MealType)
    requires Breakfast <= m <= Snack
    ensures MarshalJSON(m).Ok?
    ensures UnmarshalJSON(MarshalJSON(m).value, receiver) == Decoded(m, None)
  {
    MapsAreInverse();
  }

  /** Decoding one of the four names and encoding the code gives the name back. */
  lemma EncodeDecode(name: string, receiver: MealType)
    requires name in MealTypeValues
    ensures UnmarshalJSON(JString(name), receiver).err.None?
    ensures MarshalJSON(UnmarshalJSON(JString(name), receiver).target) == Ok(JString(name))
  {
    MapsAreInverse();
  }

  /** An integer is taken as it is: 0 or 7 decode without error, and then cannot be encoded. */
  lemma OutOfRangeDecodesButDoesNotEncode(n: int, receiver: MealType)
    requires GoIntMin <= n <= GoIntMax
    requires !(Breakfast <= n <= Snack)
    ensures UnmarshalJSON(JInteger(n), receiver) == Decoded(n, None)
    ensures MarshalJSON(UnmarshalJSON(JInteger(n), receiver).target) == Err(UnknownMealType)
  {
  }

  /** Every decoded value is either one of the four codes or came from a JSON integer. */
  lemma DecodedNameIsKnownCode(data: Json, receiver: MealType)
    requires data.JString? || data.JNull?
    requires UnmarshalJSON(data, receiver).err.None?
    ensures Breakfast <= UnmarshalJSON(data, receiver).target <= Snack
  {
  }
}
