/** The two tables of parser.js (`fieldPropertyMapping`, `fieldParsers`)
    and `lookupField`. */
module Registry {
  import opened Wrappers
  import opened Values

  /** The interpreters that `fieldParsers` names; `Structured(fields)` is
      what `structured(fields)` returns. */
  datatype Handler =
    | Noop
    | SingleLine
    | TypedLine
    | AddressLine
    | CommaSeparatedLine
    | Structured(fields: seq<string>)
    | DateLine
    | EndCard

  /** `fieldPropertyMapping`: field name to attribute name. */
  const FieldPropertyMapping: map<string, string> := map[
    "TITLE" := "title",
    "TEL" := "telephone",
    "FN" := "displayName",
    "N" := "name",
    "EMAIL" := "email",
    "CATEGORIES" := "categories",
    "ADR" := "address",
    "URL" := "url",
    "NOTE" := "notes",
    "ORG" := "organization",
    "BDAY" := "birthday",
    "PHOTO" := "photo"
  ]

  /** The sub-fields of N, in order. */
  const NameFields: seq<string> := ["surname", "name", "additionalName", "prefix", "suffix"]

  /** `fieldParsers`: field name to interpreter. */
  const FieldParsers: map<string, Handler> := map[
    "BEGIN" := Noop,
    "VERSION" := Noop,
    "N" := Structured(NameFields),
    "TITLE" := SingleLine,
    "TEL" := TypedLine,
    "EMAIL" := TypedLine,
    "ADR" := AddressLine,
    "NOTE" := SingleLine,
    "NICKNAME" := CommaSeparatedLine,
    "BDAY" := DateLine,
    "URL" := SingleLine,
    "CATEGORIES" := CommaSeparatedLine,
    "END" := EndCard,
    "FN" := SingleLine,
    "ORG" := SingleLine,
    "UID" := SingleLine,
    "PHOTO" := SingleLine
  ]

  /** `lookupField`: the mapped attribute name when the mapping has a
      non-empty one; otherwise, except for BEGIN and END, the field name
      itself and one info notice; for BEGIN and END nothing at all. */
  function LookupField(fieldName: string): (r: (Option<string>, seq<Notice>))
    ensures fieldName in FieldPropertyMapping ==> r == (Some(FieldPropertyMapping[fieldName]), [])
    ensures fieldName == "BEGIN" || fieldName == "END" ==> r == (None, [])
    ensures fieldName !in FieldPropertyMapping && fieldName != "BEGIN" && fieldName != "END" ==>
      r == (Some(fieldName), [Info("define property name for " + fieldName)])
  {
    var propertyName := if fieldName in FieldPropertyMapping then Some(FieldPropertyMapping[fieldName]) else None;
    if (propertyName.None? || propertyName.value == "") && fieldName != "BEGIN" && fieldName != "END" then
      (Some(fieldName), [Info("define property name for " + fieldName)])
    else
      (propertyName, [])
  }

  /** `fieldName.substring(0, 2) == 'X-'`. */
  predicate IsExtension(fieldName: string) {
    |fieldName| >= 2 && fieldName[..2] == "X-"
  }

  /** The shape of what an interpreter stores; none for those that store
      nothing. */
  function HandlerShape(h: Handler): Option<Shape> {
    match h
    case Noop => None
    case EndCard => None
    case SingleLine => Some(TextShape)
    case TypedLine => Some(EntriesShape)
    case AddressLine => Some(EntriesShape)
    case CommaSeparatedLine => Some(ListShape)
    case Structured(_) => Some(FieldsShape)
    case DateLine => Some(DateShape)
  }

  /** The one shape each attribute of a card may take. */
  const AttributeShapes: map<string, Shape> := map[
    "title" := TextShape,
    "telephone" := EntriesShape,
    "displayName" := TextShape,
    "name" := FieldsShape,
    "email" := EntriesShape,
    "categories" := ListShape,
    "address" := EntriesShape,
    "url" := TextShape,
    "notes" := TextShape,
    "organization" := TextShape,
    "birthday" := DateShape,
    "photo" := TextShape,
    "NICKNAME" := ListShape,
    "UID" := TextShape
  ]

  /** Every interpreter that stores something gets an attribute name, and
      that attribute's shape is the one the interpreter stores: no two
      interpreters of different shapes share an attribute. */
  lemma ShapesAgree(fieldName: string)
    requires fieldName in FieldParsers
    ensures HandlerShape(FieldParsers[fieldName]).Some? ==>
      && LookupField(fieldName).0.Some?
      && LookupField(fieldName).0.value in AttributeShapes
      && AttributeShapes[LookupField(fieldName).0.value] == HandlerShape(FieldParsers[fieldName]).value
  {
    FieldNames(fieldName);
    if fieldName == "TITLE" || fieldName == "NOTE" || fieldName == "URL" || fieldName == "FN" {
      TextFieldsAgree(fieldName);
    } else if fieldName == "ORG" || fieldName == "UID" || fieldName == "PHOTO" {
      OtherTextFieldsAgree(fieldName);
    } else if fieldName == "TEL" || fieldName == "EMAIL" || fieldName == "ADR" {
      TypedFieldsAgree(fieldName);
    } else if fieldName == "N" || fieldName == "NICKNAME" || fieldName == "BDAY" || fieldName == "CATEGORIES" {
      ValueFieldsAgree(fieldName);
    } else {
      MarkerFieldsAgree(fieldName);
    }
  }

  /** The conclusion of `ShapesAgree` for one field. */
  predicate Agrees(fieldName: string)
    requires fieldName in FieldParsers
  {
    HandlerShape(FieldParsers[fieldName]).Some? ==>
      && LookupField(fieldName).0.Some?
      && LookupField(fieldName).0.value in AttributeShapes
      && AttributeShapes[LookupField(fieldName).0.value] == HandlerShape(FieldParsers[fieldName]).value
  }

  /** `ShapesAgree` for the single-line text fields of a person. */
  lemma TextFieldsAgree(fieldName: string)
    requires fieldName == "TITLE" || fieldName == "NOTE" || fieldName == "URL" || fieldName == "FN"
    ensures fieldName in FieldParsers && Agrees(fieldName)
  {
  }

  /** `ShapesAgree` for the other single-line text fields. */
  lemma OtherTextFieldsAgree(fieldName: string)
    requires fieldName == "ORG" || fieldName == "UID" || fieldName == "PHOTO"
    ensures fieldName in FieldParsers && Agrees(fieldName)
  {
  }

  /** `ShapesAgree` for the typed fields. */
  lemma TypedFieldsAgree(fieldName: string)
    requires fieldName == "TEL" || fieldName == "EMAIL" || fieldName == "ADR"
    ensures fieldName in FieldParsers && Agrees(fieldName)
  {
  }

  /** `ShapesAgree` for the structured, list and date fields. */
  lemma ValueFieldsAgree(fieldName: string)
    requires fieldName == "N" || fieldName == "NICKNAME" || fieldName == "BDAY" || fieldName == "CATEGORIES"
    ensures fieldName in FieldParsers && Agrees(fieldName)
  {
  }

  /** `ShapesAgree` for the fields that store nothing. */
  lemma MarkerFieldsAgree(fieldName: string)
    requires fieldName == "BEGIN" || fieldName == "VERSION" || fieldName == "END"
    ensures fieldName in FieldParsers && Agrees(fieldName)
  {
  }

  /** The fields that have an interpreter, one by one. */
  lemma FieldNames(fieldName: string)
    ensures fieldName in FieldParsers <==>
      fieldName in {"BEGIN", "VERSION", "N", "TITLE", "TEL", "EMAIL", "ADR", "NOTE", "NICKNAME",
                    "BDAY", "URL", "CATEGORIES", "END", "FN", "ORG", "UID", "PHOTO"}
  {
  }

  /** The fields that have an attribute name, and no two of them share
      one. */
  lemma PropertyNames(fieldName: string, other: string)
    ensures fieldName in FieldPropertyMapping <==>
      fieldName in {"TITLE", "TEL", "FN", "N", "EMAIL", "CATEGORIES", "ADR", "URL", "NOTE", "ORG", "BDAY", "PHOTO"}
    ensures fieldName in FieldPropertyMapping && other in FieldPropertyMapping && fieldName != other ==>
      FieldPropertyMapping[fieldName] != FieldPropertyMapping[other]
  {
  }

  /** Which fields commit a card, which are typed, and which are ignored. */
  lemma HandlerKinds(fieldName: string)
    requires fieldName in FieldParsers
    ensures FieldParsers[fieldName] == EndCard <==> fieldName == "END"
    ensures FieldParsers[fieldName] == TypedLine || FieldParsers[fieldName] == AddressLine <==>
      fieldName == "TEL" || fieldName == "EMAIL" || fieldName == "ADR"
    ensures FieldParsers[fieldName] == Noop <==> fieldName == "BEGIN" || fieldName == "VERSION"
  {
    FieldNames(fieldName);
  }

  /** Among the fields that have an interpreter, exactly VERSION, NICKNAME
      and UID lack a mapped attribute name and cause a notice; every mapped
      field has an interpreter. */
  lemma RegistryGaps(fieldName: string)
    ensures fieldName in FieldPropertyMapping ==> fieldName in FieldParsers
    ensures fieldName in FieldParsers ==>
      (LookupField(fieldName).1 != [] <==> fieldName == "VERSION" || fieldName == "NICKNAME" || fieldName == "UID")
  {
  }
}
