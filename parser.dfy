/** `feedData`, the handlers that change the context, and `parse`
    (parser.js:35-76, 115-142, 164-229). The `Context` class is the context
    object; `Feed` is the same loop written as a fold, about which the
    lemmas below speak. */
module Parser {
  import opened Wrappers
  import opened Text
  import opened Values
  import opened Unfolding
  import opened Tokenizer
  import opened Registry
  import opened Interpreters

  /** Every attribute of a card holds the shape its interpreter stores. */
  ghost predicate WellShaped(card: Card) {
    forall k :: k in card ==> k in AttributeShapes && ShapeOf(card[k]) == AttributeShapes[k]
  }

  /** The state of the `feedData` loop: the card under construction, the
      finished cards, the notices sent so far, the `fieldTypeInfo` that the
      loop carries from line to line, and the crash that ended it, if any. */
  datatype Run = Run(card: Card, cards: seq<Card>, notices: seq<Notice>, carried: Option<seq<Param>>, crash: Option<Crash>)

  /** Storing a value of the attribute's own shape keeps a card well
      shaped. */
  lemma StoreKeepsShape(card: Card, attr: string, r: Card)
    requires WellShaped(card) && attr in AttributeShapes
    requires r.Keys == card.Keys + {attr}
    requires forall k :: k in card && k != attr ==> r[k] == card[k]
    requires ShapeOf(r[attr]) == AttributeShapes[attr]
    ensures WellShaped(r)
  {
  }

  /** The card after `card[attr] = v`, for a value of the attribute's shape. */
  function Put(card: Card, attr: string, v: Value): (r: Card)
    requires WellShaped(card) && attr in AttributeShapes && ShapeOf(v) == AttributeShapes[attr]
    ensures WellShaped(r)
  {
    StoreKeepsShape(card, attr, card[attr := v]);
    card[attr := v]
  }

  /** `singleLine` on a well-shaped card. */
  function PutText(card: Card, attr: string, fieldValue: string): (r: Card)
    requires WellShaped(card) && attr in AttributeShapes && AttributeShapes[attr] == TextShape
    ensures WellShaped(r)
  {
    assert attr in card ==> ShapeOf(card[attr]) == TextShape;
    var c := AppendText(card, attr, fieldValue);
    StoreKeepsShape(card, attr, c);
    c
  }

  /** `typedLine` and `addressLine` on a well-shaped card. */
  function PutEntry(card: Card, attr: string, entry: Entry): (r: Card)
    requires WellShaped(card) && attr in AttributeShapes && AttributeShapes[attr] == EntriesShape
    ensures WellShaped(r)
  {
    assert attr in card ==> ShapeOf(card[attr]) == EntriesShape;
    var c := AppendEntry(card, attr, entry);
    StoreKeepsShape(card, attr, c);
    c
  }

  /** What the interpreter `h` does to the state. */
  function Interpret(h: Handler, r: Run, fieldValue: string, attr: Option<string>, oracle: DateOracle): (r': Run)
    requires WellShaped(r.card)
    requires HandlerShape(h).Some? ==>
      attr.Some? && attr.value in AttributeShapes && AttributeShapes[attr.value] == HandlerShape(h).value
    ensures WellShaped(r'.card)
    ensures r'.carried == r.carried
    ensures r'.crash != r.crash ==> r'.crash == Some(TypedFieldWithoutParameters)
  {
    match h
    case Noop => r
    case EndCard => r.(cards := r.cards + [r.card], card := map[])
    case SingleLine => r.(card := PutText(r.card, attr.value, fieldValue))
    case TypedLine =>
      if r.carried.None? then r.(crash := Some(TypedFieldWithoutParameters))
      else r.(card := PutEntry(r.card, attr.value, TypedEntry(r.carried.value, fieldValue, None)))
    case AddressLine =>
      if r.carried.None? then r.(crash := Some(TypedFieldWithoutParameters))
      else r.(card := PutEntry(r.card, attr.value, TypedEntry(r.carried.value, fieldValue, Some(AddressFormatter))))
    case CommaSeparatedLine => r.(card := Put(r.card, attr.value, List(Split(fieldValue, ','))))
    case Structured(fields) => r.(card := Put(r.card, attr.value, Fields(StructuredValue(fields, fieldValue))))
    case DateLine =>
      var (d, ns) := ParseDate(fieldValue, oracle);
      r.(card := Put(r.card, attr.value, Date(d)), notices := r.notices + ns)
  }

  /** The unknown-field notice. */
  function UnknownField(t: Token): Notice {
    Info("unknown field " + t.name + " with value " + t.value)
  }

  /** The parameter list `feedData` carries after a token: the token's
      own, or else the one carried before. */
  function Carry(carried: Option<seq<Param>>, t: Token): Option<seq<Param>> {
    if t.params.Some? then t.params else carried
  }

  /** A tokenized line: its interpreter after `lookupField`, nothing for an
      X- extension, or the unknown-field notice. */
  function FeedToken(r: Run, t: Token, oracle: DateOracle): (r': Run)
    requires WellShaped(r.card)
    ensures WellShaped(r'.card)
  {
    var r0 := r.(carried := Carry(r.carried, t));
    if t.name in FieldParsers then
      var (attr, ns) := Registry.LookupField(t.name);
      ShapesAgree(t.name);
      Interpret(FieldParsers[t.name], r0.(notices := r0.notices + ns), t.value, attr, oracle)
    else if IsExtension(t.name) then r0
    else r0.(notices := r0.notices + [UnknownField(t)])
  }

  /** One iteration of the `feedData` loop; after a crash nothing more
      happens. */
  function FeedLine(r: Run, line: string, oracle: DateOracle): (r': Run)
    requires WellShaped(r.card)
    ensures WellShaped(r'.card)
  {
    if r.crash.Some? then r
    else
      match Tokenize(line)
      case Failure(e) => r.(crash := Some(e))
      case Success(t) => FeedToken(r, t, oracle)
  }

  /** The `feedData` loop over `lines`, as a fold. */
  function Feed(start: Run, lines: seq<string>, oracle: DateOracle): (r: Run)
    requires WellShaped(start.card)
    ensures WellShaped(r.card)
    decreases |lines|
  {
    if |lines| == 0 then start
    else FeedLine(Feed(start, lines[..|lines| - 1], oracle), lines[|lines| - 1], oracle)
  }

  /** The state `parse` starts `feedData` in. */
  function Initial(): Run {
    Run(map[], [], [], None, None)
  }

  /** `parse`: the finished cards, or the crash; and the notices sent. */
  function ParseSpec(data: string, oracle: DateOracle): (Result<seq<Card>, Crash>, seq<Notice>) {
    var r := Feed(Initial(), LogicalLines(data), oracle);
    (if r.crash.Some? then Failure(r.crash.value) else Success(r.cards), r.notices)
  }

  /** The context object of `parse`: its lines, the card under
      construction, the finished cards, and the notices sent to `info` and
      `error`. */
  class Context {
    const data: seq<string>
    var currentCard: Card
    var cards: seq<Card>
    var notices: seq<Notice>

    constructor (lines: seq<string>)
      ensures data == lines && currentCard == map[] && cards == [] && notices == []
    {
      data := lines;
      currentCard := map[];
      cards := [];
      notices := [];
    }

    /** `context.info`. */
    method Info(message: string)
      modifies this
      ensures notices == old(notices) + [Notice.Info(message)]
      ensures currentCard == old(currentCard) && cards == old(cards)
    {
      notices := notices + [Notice.Info(message)];
    }

    /** `context.error`. */
    method Error(message: string)
      modifies this
      ensures notices == old(notices) + [Notice.Error(message)]
      ensures currentCard == old(currentCard) && cards == old(cards)
    {
      notices := notices + [Notice.Error(message)];
    }

    /** `lookupField`, with its notice sent to `info`. */
    method LookupField(fieldName: string) returns (propertyName: Option<string>)
      modifies this
      ensures propertyName == Registry.LookupField(fieldName).0
      ensures notices == old(notices) + Registry.LookupField(fieldName).1
      ensures currentCard == old(currentCard) && cards == old(cards)
    {
      propertyName := if fieldName in FieldPropertyMapping then Some(FieldPropertyMapping[fieldName]) else None;
      if (propertyName.None? || propertyName.value == "") && fieldName != "BEGIN" && fieldName != "END" {
        Info("define property name for " + fieldName);
        propertyName := Some(fieldName);
      }
    }

    /** `singleLine`. */
    method SingleLine(fieldValue: string, fieldName: string)
      requires fieldName in currentCard ==> currentCard[fieldName].Text?
      modifies this
      ensures currentCard == AppendText(old(currentCard), fieldName, fieldValue)
      ensures cards == old(cards) && notices == old(notices)
    {
      var value := UnescapeFirst(fieldValue);
      if fieldName in currentCard && currentCard[fieldName].text != "" {
        currentCard := currentCard[fieldName := Text(currentCard[fieldName].text + "\n" + value)];
      } else {
        currentCard := currentCard[fieldName := Text(value)];
      }
    }

    /** `typedLine`: without a parameter list the original code throws. */
    method TypedLine(fieldValue: string, fieldName: string, typeInfo: Option<seq<Param>>,
                     valueFormatter: Option<string -> EntryValue>)
      returns (crash: Option<Crash>)
      requires fieldName in currentCard ==> currentCard[fieldName].Entries?
      modifies this
      ensures typeInfo.None? ==> crash == Some(TypedFieldWithoutParameters) && currentCard == old(currentCard)
      ensures typeInfo.Some? ==>
        (crash == None &&
         currentCard == AppendEntry(old(currentCard), fieldName, TypedEntry(typeInfo.value, fieldValue, valueFormatter)))
      ensures cards == old(cards) && notices == old(notices)
    {
      if typeInfo.None? {
        return Some(TypedFieldWithoutParameters);
      }
      var entry := TypedEntry(typeInfo.value, fieldValue, valueFormatter);
      var list := if fieldName in currentCard then currentCard[fieldName].entries else [];
      currentCard := currentCard[fieldName := Entries(list + [entry])];
      crash := None;
    }

    /** `commaSeparatedLine`: the attribute is overwritten with the pieces
      of `split(',')`. */
    method CommaSeparatedLine(fieldValue: string, fieldName: string)
      modifies this
      ensures currentCard == old(currentCard)[fieldName := List(Split(fieldValue, ','))]
      ensures cards == old(cards) && notices == old(notices)
    {
      currentCard := currentCard[fieldName := List(Split(fieldValue, ','))];
    }

    /** The function `structured(fields)` returns. */
    method Structured(fields: seq<string>, fieldValue: string, fieldName: string)
      modifies this
      ensures currentCard == old(currentCard)[fieldName := Fields(StructuredValue(fields, fieldValue))]
      ensures cards == old(cards) && notices == old(notices)
    {
      currentCard := currentCard[fieldName := Fields(StructuredValue(fields, fieldValue))];
    }

    /** `dateLine`, with the host's `Date` as the oracle. */
    method DateLine(fieldValue: string, fieldName: string, oracle: DateOracle)
      modifies this
      ensures currentCard == old(currentCard)[fieldName := Date(ParseDate(fieldValue, oracle).0)]
      ensures notices == old(notices) + ParseDate(fieldValue, oracle).1
      ensures cards == old(cards)
    {
      var text := DateText(fieldValue);
      var dateValue := oracle(DateInputOf(fieldValue));
      if dateValue.None? {
        Error("invalid date format " + text);
      }
      currentCard := currentCard[fieldName := Date(dateValue)];
    }

    /** `addressLine`. */
    method AddressLine(fieldValue: string, fieldName: string, typeInfo: Option<seq<Param>>)
      returns (crash: Option<Crash>)
      requires fieldName in currentCard ==> currentCard[fieldName].Entries?
      modifies this
      ensures typeInfo.None? ==> crash == Some(TypedFieldWithoutParameters) && currentCard == old(currentCard)
      ensures typeInfo.Some? ==>
        (crash == None &&
         currentCard == AppendEntry(old(currentCard), fieldName, TypedEntry(typeInfo.value, fieldValue, Some(AddressFormatter))))
      ensures cards == old(cards) && notices == old(notices)
    {
      crash := TypedLine(fieldValue, fieldName, typeInfo, Some(AddressFormatter));
    }

    /** `endCard`: the card is committed and a new empty one started. */
    method EndCard()
      modifies this
      ensures cards == old(cards) + [old(currentCard)]
      ensures currentCard == map[]
      ensures notices == old(notices)
    {
      cards := cards + [currentCard];
      currentCard := map[];
    }

    /** `fieldHandler(context, fieldValue, lookupField(...), fieldTypeInfo)`. */
    method Dispatch(h: Handler, fieldValue: string, fieldName: Option<string>, typeInfo: Option<seq<Param>>,
                    oracle: DateOracle)
      returns (crash: Option<Crash>)
      requires WellShaped(currentCard)
      requires HandlerShape(h).Some? ==>
        fieldName.Some? && fieldName.value in AttributeShapes && AttributeShapes[fieldName.value] == HandlerShape(h).value
      modifies this
      ensures var r := Interpret(h, Run(old(currentCard), old(cards), old(notices), typeInfo, None), fieldValue, fieldName, oracle);
        currentCard == r.card && cards == r.cards && notices == r.notices && crash == r.crash
    {
      crash := None;
      match h
      case Noop =>
      case EndCard => EndCard();
      case SingleLine => SingleLine(fieldValue, fieldName.value);
      case TypedLine => crash := TypedLine(fieldValue, fieldName.value, typeInfo, None);
      case AddressLine => crash := AddressLine(fieldValue, fieldName.value, typeInfo);
      case CommaSeparatedLine => CommaSeparatedLine(fieldValue, fieldName.value);
      case Structured(fields) => Structured(fields, fieldValue, fieldName.value);
      case DateLine => DateLine(fieldValue, fieldName.value, oracle);
    }

    /** One pass of the `feedData` loop body over `line`, given the
      parameter list carried so far. */
    method FeedOne(line: string, fieldTypeInfo: Option<seq<Param>>, oracle: DateOracle)
      returns (carried: Option<seq<Param>>, crash: Option<Crash>)
      requires WellShaped(currentCard)
      modifies this
      ensures var r := FeedLine(Run(old(currentCard), old(cards), old(notices), fieldTypeInfo, None), line, oracle);
        currentCard == r.card && cards == r.cards && notices == r.notices && carried == r.carried && crash == r.crash
    {
      carried := fieldTypeInfo;
      crash := None;
      var token := Tokenize(line);
      if token.Failure? {
        crash := Some(token.error);
        return;
      }
      var t := token.value;
      if t.params.Some? {
        carried := t.params;
      }
      if t.name in FieldParsers {
        var propertyName := LookupField(t.name);
        ShapesAgree(t.name);
        crash := Dispatch(FieldParsers[t.name], t.value, propertyName, carried, oracle);
      } else if !IsExtension(t.name) {
        Info("unknown field " + t.name + " with value " + t.value);
      }
    }

    /** `feedData`: every line in order, carrying the last parameter list
      from line to line, until the lines run out or a line throws. */
    method FeedData(oracle: DateOracle) returns (crash: Option<Crash>)
      requires WellShaped(currentCard)
      modifies this
      ensures var r := Feed(Run(old(currentCard), old(cards), old(notices), None, None), data, oracle);
        currentCard == r.card && cards == r.cards && notices == r.notices && crash == r.crash
    {
      ghost var start := Run(currentCard, cards, notices, None, None);
      var fieldTypeInfo: Option<seq<Param>> := None;
      crash := None;
      var i := 0;
      while i < |data| && crash.None?
        invariant 0 <= i <= |data|
        invariant WellShaped(currentCard)
        invariant Run(currentCard, cards, notices, fieldTypeInfo, crash) == Feed(start, data[..i], oracle)
      {
        assert data[..i + 1][..i] == data[..i];
        fieldTypeInfo, crash := FeedOne(data[i], fieldTypeInfo, oracle);
        i := i + 1;
      }
      if i < |data| {
        FeedAppend(start, data[..i], data[i..], oracle);
        CrashSticks(Feed(start, data[..i], oracle), data[i..], oracle);
        assert data[..i] + data[i..] == data;
      } else {
        assert data[..i] == data;
      }
    }
  }

  /** `parse`: unfold and split the text, run `feedData` on a fresh
      context, return its cards. A throw in the original code becomes
      `Failure`; the notices sent before it are returned either way. */
  method Parse(data: string, oracle: DateOracle) returns (result: Result<seq<Card>, Crash>, log: seq<Notice>)
    ensures (result, log) == ParseSpec(data, oracle)
  {
    var lines := LogicalLines(data);
    var context := new Context(lines);
    var crash := context.FeedData(oracle);
    log := context.notices;
    result := if crash.Some? then Failure(crash.value) else Success(context.cards);
  }

  // Properties of the loop

  /** Once a line has thrown, the remaining lines change nothing. */
  lemma {:induction false} CrashSticks(r: Run, lines: seq<string>, oracle: DateOracle)
    requires WellShaped(r.card) && r.crash.Some?
    ensures Feed(r, lines, oracle) == r
    decreases |lines|
  {
    if |lines| > 0 {
      CrashSticks(r, lines[..|lines| - 1], oracle);
    }
  }

  /** Feeding two runs of lines one after the other is feeding their
      concatenation. */
  lemma {:induction false} FeedAppend(start: Run, a: seq<string>, b: seq<string>, oracle: DateOracle)
    requires WellShaped(start.card)
    ensures Feed(start, a + b, oracle) == Feed(Feed(start, a, oracle), b, oracle)
    decreases |b|
  {
    if |b| == 0 {
      assert a + b == a;
    } else {
      var n := |b| - 1;
      FeedAppend(start, a, b[..n], oracle);
      assert (a + b)[..|a + b| - 1] == a + b[..n];
      assert (a + b)[|a + b| - 1] == b[n];
    }
  }
}

module ParserProperties {
  import opened Wrappers
  import opened Text
  import opened Values
  import opened Unfolding
  import opened Tokenizer
  import opened Registry
  import opened Interpreters
  import opened Parser

  /** A line that tokenizes to the END field. */
  predicate IsEndLine(line: string) {
    Tokenize(line).Success? && Tokenize(line).value.name == "END"
  }

  /** The number of END lines. */
  function CountEnds(lines: seq<string>): (n: nat)
    ensures n <= |lines|
  {
    if |lines| == 0 then 0
    else CountEnds(lines[..|lines| - 1]) + (if IsEndLine(lines[|lines| - 1]) then 1 else 0)
  }

  /** What an interpreter does to the cards, the notices and the crash. */
  lemma InterpretEffects(h: Handler, r: Run, fieldValue: string, attr: Option<string>, oracle: DateOracle)
    requires WellShaped(r.card) && r.crash.None?
    requires HandlerShape(h).Some? ==>
      attr.Some? && attr.value in AttributeShapes && AttributeShapes[attr.value] == HandlerShape(h).value
    ensures Interpret(h, r, fieldValue, attr, oracle).cards == (if h == EndCard then r.cards + [r.card] else r.cards)
    ensures h == EndCard ==> Interpret(h, r, fieldValue, attr, oracle).card == map[]
    ensures h == Noop ==> Interpret(h, r, fieldValue, attr, oracle) == r
    ensures Interpret(h, r, fieldValue, attr, oracle).crash.Some? <==>
      (h == TypedLine || h == AddressLine) && r.carried.None?
  {
  }

  /** A tokenized line, before anything has thrown: what it does to the
      cards, what it does to the rest of the state for fields without a
      storing interpreter, and when it throws. */
  lemma FeedTokenEffects(r: Run, t: Token, oracle: DateOracle)
    requires WellShaped(r.card) && r.crash.None?
    ensures FeedToken(r, t, oracle).cards == (if t.name == "END" then r.cards + [r.card] else r.cards)
    ensures t.name == "END" ==> FeedToken(r, t, oracle).card == map[]
    ensures FeedToken(r, t, oracle).carried == Carry(r.carried, t)
    ensures t.name == "BEGIN" ==> FeedToken(r, t, oracle) == r.(carried := Carry(r.carried, t))
    ensures t.name == "VERSION" ==>
      FeedToken(r, t, oracle) == r.(carried := Carry(r.carried, t),
                                    notices := r.notices + [Info("define property name for " + t.name)])
    ensures FeedToken(r, t, oracle).crash.Some? <==>
      (t.name == "TEL" || t.name == "EMAIL" || t.name == "ADR") && Carry(r.carried, t).None?
  {
    if t.name in FieldParsers {
      ShapesAgree(t.name);
      HandlerKinds(t.name);
      var r0 := r.(carried := Carry(r.carried, t), notices := r.notices + Registry.LookupField(t.name).1);
      InterpretEffects(FieldParsers[t.name], r0, t.value, Registry.LookupField(t.name).0, oracle);
      if t.name == "VERSION" {
        assert Registry.LookupField(t.name).1 == [Info("define property name for " + t.name)];
      }
    } else {
      assert t.name != "END" && t.name != "TEL" && t.name != "EMAIL" && t.name != "ADR";
    }
  }

  /** A line adds a card exactly when it is an END line and nothing has
      thrown; the card added is the one under construction, and a fresh
      empty card follows. */
  lemma FeedLineCards(r: Run, line: string, oracle: DateOracle)
    requires WellShaped(r.card)
    ensures FeedLine(r, line, oracle).cards ==
      (if r.crash.None? && IsEndLine(line) then r.cards + [r.card] else r.cards)
    ensures r.crash.None? && IsEndLine(line) ==> FeedLine(r, line, oracle).card == map[]
  {
    if r.crash.None? && Tokenize(line).Success? {
      FeedTokenEffects(r, Tokenize(line).value, oracle);
    }
  }

  /** What a tokenized line does besides its interpreter: the parameter
      list is carried over to later lines when the line has none; BEGIN and
      the X- extensions change nothing else; VERSION only sends the
      missing-name notice; an unknown field only sends its notice. */
  lemma FeedLineBookkeeping(r: Run, line: string, t: Token, oracle: DateOracle)
    requires WellShaped(r.card) && r.crash.None? && Tokenize(line) == Success(t)
    ensures FeedLine(r, line, oracle).carried == Carry(r.carried, t)
    ensures t.name == "BEGIN" ==> FeedLine(r, line, oracle) == r.(carried := Carry(r.carried, t))
    ensures t.name == "VERSION" ==>
      FeedLine(r, line, oracle) == r.(carried := Carry(r.carried, t),
                                       notices := r.notices + [Info("define property name for " + t.name)])
    ensures t.name !in FieldParsers && IsExtension(t.name) ==>
      FeedLine(r, line, oracle) == r.(carried := Carry(r.carried, t))
    ensures t.name !in FieldParsers && !IsExtension(t.name) ==>
      FeedLine(r, line, oracle) == r.(carried := Carry(r.carried, t), notices := r.notices + [UnknownField(t)])
  {
    assert FeedLine(r, line, oracle) == FeedToken(r, t, oracle);
    FeedTokenEffects(r, t, oracle);
  }

  /** A line throws exactly when it does not tokenize, or when it is TEL,
      EMAIL or ADR and no parameter list has been seen on it or any line
      before it. */
  lemma FeedLineCrash(r: Run, line: string, oracle: DateOracle)
    requires WellShaped(r.card) && r.crash.None?
    ensures Tokenize(line).Failure? ==> FeedLine(r, line, oracle).crash == Some(Tokenize(line).error)
    ensures Tokenize(line).Success? ==>
      var t := Tokenize(line).value;
      (FeedLine(r, line, oracle).crash.Some? <==>
        (t.name == "TEL" || t.name == "EMAIL" || t.name == "ADR") && Carry(r.carried, t).None?)
  {
    if Tokenize(line).Success? {
      FeedTokenEffects(r, Tokenize(line).value, oracle);
    }
  }

  /** The parameter list of a line's own, if it tokenizes and has one. */
  function OwnParams(line: string): Option<seq<Param>> {
    if Tokenize(line).Success? then Tokenize(line).value.params else None
  }

  /** `OwnParams` of each line. */
  function OwnParamsOf(lines: seq<string>): (r: seq<Option<seq<Param>>>)
    ensures |r| == |lines| && forall i :: 0 <= i < |lines| ==> r[i] == OwnParams(lines[i])
  {
    seq(|lines|, i requires 0 <= i < |lines| => OwnParams(lines[i]))
  }

  /** Entry `j` is the last one present. */
  ghost predicate LastPresent(owns: seq<Option<seq<Param>>>, j: int) {
    0 <= j < |owns| && owns[j].Some? && forall k :: j < k < |owns| ==> owns[k].None?
  }

  /** The last list present, or `carried` when none is. */
  function Latest(carried: Option<seq<Param>>, owns: seq<Option<seq<Param>>>): Option<seq<Param>>
    decreases |owns|
  {
    if |owns| == 0 then carried
    else if owns[|owns| - 1].Some? then owns[|owns| - 1]
    else Latest(carried, owns[..|owns| - 1])
  }

  /** `Latest` is the last list present. */
  lemma {:induction false} LatestIsLast(carried: Option<seq<Param>>, owns: seq<Option<seq<Param>>>)
    ensures (forall k :: 0 <= k < |owns| ==> owns[k].None?) ==> Latest(carried, owns) == carried
    ensures forall j :: LastPresent(owns, j) ==> Latest(carried, owns) == owns[j]
    decreases |owns|
  {
    if |owns| > 0 {
      var n := |owns| - 1;
      var init := owns[..n];
      LatestIsLast(carried, init);
      forall j | LastPresent(owns, j)
        ensures Latest(carried, owns) == owns[j]
      {
        if j < n {
          assert LastPresent(init, j);
        }
      }
    }
  }

  /** One line that does not throw: nothing had thrown before, and the line
      carries its own list if it has one. */
  lemma CarriedStep(r: Run, line: string, oracle: DateOracle)
    requires WellShaped(r.card) && FeedLine(r, line, oracle).crash.None?
    ensures r.crash.None?
    ensures FeedLine(r, line, oracle).carried == if OwnParams(line).Some? then OwnParams(line) else r.carried
  {
    FeedLineBookkeeping(r, line, Tokenize(line).value, oracle);
  }

  /** Until a line throws, the loop carries the latest list of the lines
      read. */
  lemma {:induction false} CarriedLatest(start: Run, lines: seq<string>, oracle: DateOracle)
    requires WellShaped(start.card) && Feed(start, lines, oracle).crash.None?
    ensures Feed(start, lines, oracle).carried == Latest(start.carried, OwnParamsOf(lines))
    decreases |lines|
  {
    if |lines| > 0 {
      var n := |lines| - 1;
      var r := Feed(start, lines[..n], oracle);
      CarriedStep(r, lines[n], oracle);
      CarriedLatest(start, lines[..n], oracle);
      assert OwnParamsOf(lines)[..n] == OwnParamsOf(lines[..n]);
    }
  }

  /** The parameter list a line sees is the one of the last line before it
      (or the line itself) that had one, whatever field or card that line
      belonged to; before any such line it is the one the run started
      with. */
  lemma CarriedIsLatest(start: Run, lines: seq<string>, oracle: DateOracle)
    requires WellShaped(start.card) && Feed(start, lines, oracle).crash.None?
    ensures (forall k :: 0 <= k < |lines| ==> OwnParams(lines[k]).None?) ==>
      Feed(start, lines, oracle).carried == start.carried
    ensures forall j :: LastPresent(OwnParamsOf(lines), j) ==> Feed(start, lines, oracle).carried == OwnParams(lines[j])
  {
    CarriedLatest(start, lines, oracle);
    LatestIsLast(start.carried, OwnParamsOf(lines));
  }

  /** The cards found so far are never changed or lost, and while nothing
      has thrown there is one card per END line. */
  lemma {:induction false} CardCount(start: Run, lines: seq<string>, oracle: DateOracle)
    requires WellShaped(start.card) && start.crash.None?
    ensures start.cards <= Feed(start, lines, oracle).cards
    ensures Feed(start, lines, oracle).crash.None? ==>
      |Feed(start, lines, oracle).cards| == |start.cards| + CountEnds(lines)
    decreases |lines|
  {
    if |lines| > 0 {
      var init := lines[..|lines| - 1];
      CardCount(start, init, oracle);
      FeedLineCards(Feed(start, init, oracle), lines[|lines| - 1], oracle);
    }
  }

  /** Lines without an END add no card: fields after the last END line are
      dropped. */
  lemma {:induction false} NoEndNoCard(r: Run, lines: seq<string>, oracle: DateOracle)
    requires WellShaped(r.card) && CountEnds(lines) == 0
    ensures Feed(r, lines, oracle).cards == r.cards
    decreases |lines|
  {
    if |lines| > 0 {
      var init := lines[..|lines| - 1];
      NoEndNoCard(r, init, oracle);
      FeedLineCards(Feed(r, init, oracle), lines[|lines| - 1], oracle);
    }
  }

  /** Whatever follows the last END line leaves the cards as they were. */
  lemma TrailingLinesDropped(start: Run, a: seq<string>, b: seq<string>, oracle: DateOracle)
    requires WellShaped(start.card) && CountEnds(b) == 0
    ensures Feed(start, a + b, oracle).cards == Feed(start, a, oracle).cards
  {
    FeedAppend(start, a, b, oracle);
    NoEndNoCard(Feed(start, a, oracle), b, oracle);
  }

  /** `parse` returns exactly one card per END line of the unfolded text. */
  lemma ParseCardCount(data: string, oracle: DateOracle)
    ensures ParseSpec(data, oracle).0.Success? ==>
      |ParseSpec(data, oracle).0.value| == CountEnds(LogicalLines(data))
  {
    CardCount(Initial(), LogicalLines(data), oracle);
  }

  /** No typed entry of the card is marked as the default one. */
  ghost predicate NoDefaults(card: Card) {
    forall k :: k in card && card[k].Entries? ==>
      forall i :: 0 <= i < |card[k].entries| ==> !card[k].entries[i].isDefault
  }

  /** The invariant of the loop behind `NeverDefault`: all cards are well
      shaped and without a default entry, and the carried parameter names
      have no upper-case letter. */
  ghost predicate Clean(r: Run) {
    && WellShaped(r.card) && NoDefaults(r.card)
    && (forall i :: 0 <= i < |r.cards| ==> WellShaped(r.cards[i]) && NoDefaults(r.cards[i]))
    && (r.carried.Some? ==> forall p :: p in r.carried.value ==> NoUpperName(p))
  }

  /** A parameter list of lower-case names has no PREF entry. */
  lemma LowerNamesNoPref(params: seq<Param>)
    requires forall p :: p in params ==> NoUpperName(p)
    ensures !HasPref(params)
  {
    forall p | p in params
      ensures p.name != "PREF"
    {
      if |p.name| > 0 {
        assert !IsUpper(p.name[0]);
      }
    }
  }

  /** Appending a non-default entry keeps a card free of defaults. */
  lemma AppendKeepsNoDefaults(card: Card, attr: string, e: Entry)
    requires attr in card ==> card[attr].Entries?
    requires NoDefaults(card) && !e.isDefault
    ensures NoDefaults(AppendEntry(card, attr, e))
  {
    var c := AppendEntry(card, attr, e);
    forall k | k in c && c[k].Entries?
      ensures forall i :: 0 <= i < |c[k].entries| ==> !c[k].entries[i].isDefault
    {
      if k == attr && attr in card {
        assert c[k].entries == card[k].entries + [e];
      }
    }
  }

  /** Each interpreter keeps the invariant. */
  lemma InterpretClean(h: Handler, r: Run, fieldValue: string, attr: Option<string>, oracle: DateOracle)
    requires Clean(r)
    requires HandlerShape(h).Some? ==>
      attr.Some? && attr.value in AttributeShapes && AttributeShapes[attr.value] == HandlerShape(h).value
    ensures Clean(Interpret(h, r, fieldValue, attr, oracle))
  {
    var r' := Interpret(h, r, fieldValue, attr, oracle);
    match h
    case TypedLine =>
      if r.carried.Some? {
        LowerNamesNoPref(r.carried.value);
        assert attr.value in r.card ==> ShapeOf(r.card[attr.value]) == EntriesShape;
        AppendKeepsNoDefaults(r.card, attr.value, TypedEntry(r.carried.value, fieldValue, None));
      }
    case AddressLine =>
      if r.carried.Some? {
        LowerNamesNoPref(r.carried.value);
        assert attr.value in r.card ==> ShapeOf(r.card[attr.value]) == EntriesShape;
        AppendKeepsNoDefaults(r.card, attr.value, TypedEntry(r.carried.value, fieldValue, Some(AddressFormatter)));
      }
    case EndCard =>
      assert r'.cards == r.cards + [r.card];
    case SingleLine =>
      assert r'.card == AppendText(r.card, attr.value, fieldValue);
    case _ =>
  }

  /** One line keeps the invariant. */
  lemma FeedLineClean(r: Run, line: string, oracle: DateOracle)
    requires Clean(r)
    ensures Clean(FeedLine(r, line, oracle))
  {
    if r.crash.None? && Tokenize(line).Success? {
      var t := Tokenize(line).value;
      var r0 := r.(carried := Carry(r.carried, t));
      assert Clean(r0);
      if t.name in FieldParsers {
        ShapesAgree(t.name);
        InterpretClean(FieldParsers[t.name], r0.(notices := r0.notices + Registry.LookupField(t.name).1),
                       t.value, Registry.LookupField(t.name).0, oracle);
      }
    }
  }

  /** The whole loop keeps the invariant. */
  lemma {:induction false} FeedClean(start: Run, lines: seq<string>, oracle: DateOracle)
    requires Clean(start)
    ensures Clean(Feed(start, lines, oracle))
    decreases |lines|
  {
    if |lines| > 0 {
      FeedClean(start, lines[..|lines| - 1], oracle);
      FeedLineClean(Feed(start, lines[..|lines| - 1], oracle), lines[|lines| - 1], oracle);
    }
  }

  /** Every card `parse` returns holds each of its attributes in the one
      shape that attribute is given, and no typed entry is ever marked as
      the default: the field names are lower-cased before the comparison
      with PREF, so it never matches. */
  lemma ParseCardsShapedWithoutDefaults(data: string, oracle: DateOracle)
    ensures ParseSpec(data, oracle).0.Success? ==>
      forall c :: c in ParseSpec(data, oracle).0.value ==> WellShaped(c) && NoDefaults(c)
  {
    FeedClean(Initial(), LogicalLines(data), oracle);
  }
}
