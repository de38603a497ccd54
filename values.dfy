/** The values that flow through the parser: parameters, the attribute
    values a card holds, the notices sent to the info and error sinks, and
    the inputs on which the original code throws. */
module Values {
  import opened Wrappers

  /** One `;name=value` parameter of a property line. */
  datatype Param = Param(name: string, value: string)

  /** The seven positional parts of an ADR value. `number` is left
      undefined when the value has no second part; `postOfficeBox` always
      exists because a split yields at least one piece. */
  datatype Address = Address(
    postOfficeBox: string,
    number: Option<string>,
    street: string,
    city: string,
    region: string,
    postalCode: string,
    country: string)

  /** The `value` of a typed entry: the raw text, or what a formatter made
      of it. */
  datatype EntryValue = Raw(text: string) | Postal(address: Address)

  /** One element of a typed attribute's list. */
  datatype Entry = Entry(isDefault: bool, valueInfo: map<string, string>, value: EntryValue)

  /** The shapes an attribute of a card can take. `Date(None)` is the
      `null` stored for an invalid date. */
  datatype Value =
    | Text(text: string)
    | List(items: seq<string>)
    | Fields(fields: map<string, string>)
    | Date(iso: Option<string>)
    | Entries(entries: seq<Entry>)

  /** A contact card: attribute name to value. */
  type Card = map<string, Value>

  /** A message passed to the info or the error sink. */
  datatype Notice = Info(message: string) | Error(message: string)

  /** The inputs on which the original code throws a TypeError. */
  datatype Crash =
    | NoItemPrefixMatch           // a line starts with "item" but holds no "item<digit>."
    | ParameterWithoutEquals      // a parameter segment holds no '='
    | TypedFieldWithoutParameters // TEL, EMAIL or ADR while no parameter list was ever seen

  datatype Shape = TextShape | ListShape | FieldsShape | DateShape | EntriesShape

  function ShapeOf(v: Value): Shape {
    match v
    case Text(_) => TextShape
    case List(_) => ListShape
    case Fields(_) => FieldsShape
    case Date(_) => DateShape
    case Entries(_) => EntriesShape
  }
}
