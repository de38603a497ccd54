/** The value interpreters of parser.js as functions on a card: what
    `singleLine`, `typedLine`, `structured`, the address formatter and
    `dateLine` compute. The `Context` class applies them in place. */
module Interpreters {
  import opened Wrappers
  import opened Text
  import opened Values

  // singleLine

  /** The two characters `\` and `n` start at position `i`. */
  predicate EscapeAt(s: string, i: int) {
    0 <= i && i + 1 < |s| && s[i] == '\\' && s[i + 1] == 'n'
  }

  /** The leftmost escape at or after `from`. */
  function FirstEscape(s: string, from: nat): (r: Option<nat>)
    requires from <= |s|
    ensures r.Some? ==> from <= r.value && EscapeAt(s, r.value)
    ensures r.Some? ==> forall j :: from <= j < r.value ==> !EscapeAt(s, j)
    ensures r.None? ==> forall j :: from <= j ==> !EscapeAt(s, j)
    decreases |s| - from
  {
    if from + 1 >= |s| then None
    else if EscapeAt(s, from) then Some(from)
    else FirstEscape(s, from + 1)
  }

  /** `value.replace('\\n', '\n')`: a string pattern, so only the first
      escape becomes a line break. */
  function UnescapeFirst(s: string): (r: string)
    ensures (forall i :: !EscapeAt(s, i)) ==> r == s
    ensures forall i :: EscapeAt(s, i) && (forall j :: 0 <= j < i ==> !EscapeAt(s, j)) ==>
      r == s[..i] + "\n" + s[i + 2..]
  {
    match FirstEscape(s, 0)
    case None => s
    case Some(i) => s[..i] + "\n" + s[i + 2..]
  }

  /** A second escape survives. */
  lemma UnescapeOnlyFirst()
    ensures UnescapeFirst("a\\nb\\nc") == "a\nb\\nc"
  {
    var s := "a\\nb\\nc";
    assert EscapeAt(s, 1) && !EscapeAt(s, 0);
  }

  /** JavaScript truthiness of the attribute `singleLine` appends to. */
  predicate HasText(card: Card, attr: string)
    requires attr in card ==> card[attr].Text?
  {
    attr in card && card[attr].text != ""
  }

  /** `singleLine`: the unescaped value is appended after a line break when
      the attribute already holds non-empty text, and stored alone
      otherwise. No other attribute changes. */
  function AppendText(card: Card, attr: string, fieldValue: string): (r: Card)
    requires attr in card ==> card[attr].Text?
    ensures r.Keys == card.Keys + {attr}
    ensures forall k :: k in card && k != attr ==> r[k] == card[k]
    ensures r[attr].Text?
    ensures HasText(card, attr) ==> r[attr].text == card[attr].text + "\n" + UnescapeFirst(fieldValue)
    ensures !HasText(card, attr) ==> r[attr].text == UnescapeFirst(fieldValue)
  {
    var v := UnescapeFirst(fieldValue);
    if HasText(card, attr) then card[attr := Text(card[attr].text + "\n" + v)]
    else card[attr := Text(v)]
  }

  /** `singleLine` applied to each value in turn. */
  function AppendAll(card: Card, attr: string, values: seq<string>): (r: Card)
    requires attr in card ==> card[attr].Text?
    ensures attr in r ==> r[attr].Text?
    decreases |values|
  {
    if |values| == 0 then card
    else AppendText(AppendAll(card, attr, values[..|values| - 1]), attr, values[|values| - 1])
  }

  /** The sequence without its leading empty strings. */
  function DropLeadingEmpty(xs: seq<string>): (r: seq<string>)
    ensures r == [] || r[0] != ""
    decreases |xs|
  {
    if |xs| == 0 then []
    else if xs[0] == "" then DropLeadingEmpty(xs[1..])
    else xs
  }

  function UnescapeEach(values: seq<string>): (r: seq<string>)
    ensures |r| == |values|
    ensures forall i :: 0 <= i < |values| ==> r[i] == UnescapeFirst(values[i])
  {
    seq(|values|, i requires 0 <= i < |values| => UnescapeFirst(values[i]))
  }

  lemma DropLeadingEmptySnoc(xs: seq<string>, y: string)
    ensures DropLeadingEmpty(xs + [y]) ==
      if DropLeadingEmpty(xs) == [] then (if y == "" then [] else [y]) else DropLeadingEmpty(xs) + [y]
    decreases |xs|
  {
    if |xs| > 0 {
      assert (xs + [y])[1..] == xs[1..] + [y];
    }
  }

  lemma {:induction false} JoinSnoc(xs: seq<string>, y: string)
    requires |xs| > 0
    ensures Join(xs + [y], '\n') == Join(xs, '\n') + "\n" + y
    decreases |xs|
  {
    if |xs| == 1 {
      assert (xs + [y])[1..] == [y];
    } else {
      JoinSnoc(xs[1..], y);
      assert (xs + [y])[1..] == xs[1..] + [y];
    }
  }

  /** Repeated plain-text fields accumulate: starting from a card without
      the attribute, the attribute holds the unescaped values joined with
      line breaks, where values before the first non-empty one are lost
      (an empty text is falsy, so the next value replaces it). */
  lemma {:induction false} RepeatedFieldsAccumulate(card: Card, attr: string, values: seq<string>)
    requires attr !in card
    ensures attr in AppendAll(card, attr, values) <==> |values| > 0
    ensures |values| > 0 ==>
      AppendAll(card, attr, values)[attr].text == Join(DropLeadingEmpty(UnescapeEach(values)), '\n')
    decreases |values|
  {
    if |values| > 0 {
      var init := values[..|values| - 1];
      RepeatedFieldsAccumulate(card, attr, init);
      AccumulateStep(card, attr, init, values[|values| - 1]);
      assert init + [values[|values| - 1]] == values;
    }
  }

  /** One more text field on top of what `RepeatedFieldsAccumulate` says of
      the earlier ones. */
  lemma AccumulateStep(card: Card, attr: string, init: seq<string>, last: string)
    requires attr !in card
    requires attr in AppendAll(card, attr, init) <==> |init| > 0
    requires |init| > 0 ==>
      AppendAll(card, attr, init)[attr].text == Join(DropLeadingEmpty(UnescapeEach(init)), '\n')
    ensures attr in AppendAll(card, attr, init + [last])
    ensures AppendAll(card, attr, init + [last])[attr].text ==
      Join(DropLeadingEmpty(UnescapeEach(init + [last])), '\n')
  {
    var values := init + [last];
    assert values[..|values| - 1] == init;
    var prev := AppendAll(card, attr, init);
    assert AppendAll(card, attr, values) == AppendText(prev, attr, last);
    var u := UnescapeFirst(last);
    assert UnescapeEach(values) == UnescapeEach(init) + [u];
    DropLeadingEmptySnoc(UnescapeEach(init), u);
    var d := DropLeadingEmpty(UnescapeEach(init));
    if d == [] {
      assert !HasText(prev, attr);
      assert Join([u], '\n') == u;
    } else {
      JoinSnoc(d, u);
      assert Join(d, '\n') != "" by {
        if |d| > 1 {
          assert Join(d, '\n') == d[0] + ['\n'] + Join(d[1..], '\n');
        }
      }
      assert HasText(prev, attr);
    }
  }

  // typedLine

  /** Some parameter is named exactly `PREF`. */
  predicate HasPref(params: seq<Param>) {
    exists p :: p in params && p.name == "PREF"
  }

  /** `typeInfo.filter(type => type.name !== 'PREF')`. */
  function WithoutPref(params: seq<Param>): (r: seq<Param>)
    ensures forall p {:trigger p in r} :: p in r <==> p in params && p.name != "PREF"
    ensures |r| <= |params|
    decreases |params|
  {
    if |params| == 0 then []
    else if params[0].name == "PREF" then WithoutPref(params[1..])
    else [params[0]] + WithoutPref(params[1..])
  }

  /** `filter` keeps the order: filtering a concatenation is concatenating
      the filtered parts. */
  lemma {:induction false} WithoutPrefAppend(a: seq<Param>, b: seq<Param>)
    ensures WithoutPref(a + b) == WithoutPref(a) + WithoutPref(b)
    decreases |a|
  {
    if |a| == 0 {
      assert a + b == b;
    } else {
      var ab := a + b;
      assert ab[0] == a[0] && ab[1..] == a[1..] + b;
      WithoutPrefAppend(a[1..], b);
      if a[0].name == "PREF" {
        assert WithoutPref(ab) == WithoutPref(a[1..] + b);
        assert WithoutPref(a) == WithoutPref(a[1..]);
      } else {
        assert WithoutPref(ab) == [a[0]] + WithoutPref(a[1..] + b);
        assert WithoutPref(a) == [a[0]] + WithoutPref(a[1..]);
      }
    }
  }

  /** One parameter is kept exactly when it is not named `PREF`. */
  lemma WithoutPrefOne(p: Param)
    ensures WithoutPref([p]) == if p.name == "PREF" then [] else [p]
  {
    assert [p][1..] == [];
  }

  /** The last parameter named `k`, when `k` is not `PREF`, is still the
      last one named `k` after filtering. */
  lemma WithoutPrefLastNamed(params: seq<Param>, k: string, i: int)
    requires LastNamed(params, k, i) && k != "PREF"
    ensures exists i' :: LastNamed(WithoutPref(params), k, i') && WithoutPref(params)[i'] == params[i]
  {
    var pre, post := params[..i], params[i + 1..];
    assert params == pre + [params[i]] + post;
    WithoutPrefAppend(pre + [params[i]], post);
    WithoutPrefAppend(pre, [params[i]]);
    WithoutPrefOne(params[i]);
    var kept := WithoutPref(params);
    var i' := |WithoutPref(pre)|;
    assert kept == WithoutPref(pre) + [params[i]] + WithoutPref(post);
    assert kept[i'] == params[i];
    forall j | i' < j < |kept|
      ensures kept[j].name != k
    {
      assert kept[j] == WithoutPref(post)[j - i' - 1];
      assert kept[j] in WithoutPref(post);
      var m :| 0 <= m < |post| && post[m] == kept[j];
      assert post[m] == params[i + 1 + m];
    }
    assert LastNamed(kept, k, i');
  }

  /** Assigning a property of a fresh object literal: a key `__proto__`
      goes to the prototype setter, which ignores a string. */
  function SetProperty(m: map<string, string>, key: string, value: string): (r: map<string, string>)
    ensures key == "__proto__" ==> r == m
    ensures key != "__proto__" ==> r.Keys == m.Keys + {key} && r[key] == value
    ensures forall k :: k in m && k != key ==> r[k] == m[k]
  {
    if key == "__proto__" then m else m[key := value]
  }

  /** `reduce((p, c) => { p[c.name] = c.value; return p }, {})`: the keys
      are the parameter names. */
  function ValueInfo(params: seq<Param>): (m: map<string, string>)
    ensures m.Keys == set p | p in params && p.name != "__proto__" :: p.name
    decreases |params|
  {
    if |params| == 0 then map[]
    else
      var init := params[..|params| - 1];
      var c := params[|params| - 1];
      var m := ValueInfo(init);
      assert forall p :: p in params <==> p in init || p == c by {
        assert params == init + [c];
      }
      SetProperty(m, c.name, c.value)
  }

  /** Parameter `i` is the last one named `k`. */
  ghost predicate LastNamed(params: seq<Param>, k: string, i: int) {
    0 <= i < |params| && params[i].name == k && forall j :: i < j < |params| ==> params[j].name != k
  }

  /** Later duplicates overwrite earlier ones: a name holds the value of
      the last parameter with that name. */
  lemma {:induction false} ValueInfoLastWins(params: seq<Param>, k: string, i: int)
    requires LastNamed(params, k, i) && k != "__proto__"
    ensures k in ValueInfo(params) && ValueInfo(params)[k] == params[i].value
    decreases |params|
  {
    var n := |params| - 1;
    var init := params[..n];
    var c := params[n];
    assert ValueInfo(params) == SetProperty(ValueInfo(init), c.name, c.value);
    if i < n {
      assert LastNamed(init, k, i) by {
        forall j | i < j < |init|
          ensures init[j].name != k
        {
          assert init[j] == params[j];
        }
      }
      ValueInfoLastWins(init, k, i);
      assert c.name != k;
    }
  }

  /** The filtered parameters, reduced: every name other than `PREF` and
      `__proto__` holds the value of its last parameter. */
  lemma FilteredValueInfo(params: seq<Param>)
    ensures forall k, i :: LastNamed(params, k, i) && k != "PREF" && k != "__proto__" ==>
      k in ValueInfo(WithoutPref(params)) && ValueInfo(WithoutPref(params))[k] == params[i].value
  {
    forall k, i | LastNamed(params, k, i) && k != "PREF" && k != "__proto__"
      ensures k in ValueInfo(WithoutPref(params)) && ValueInfo(WithoutPref(params))[k] == params[i].value
    {
      WithoutPrefLastNamed(params, k, i);
      var i' :| LastNamed(WithoutPref(params), k, i') && WithoutPref(params)[i'] == params[i];
      ValueInfoLastWins(WithoutPref(params), k, i');
    }
  }

  /** The entry `typedLine` pushes. It is marked default exactly when a
      parameter is named `PREF`; no `PREF` key survives; every other
      parameter name is a key (except `__proto__`), holding the value of the
      last parameter with that name. */
  function TypedEntry(params: seq<Param>, fieldValue: string, formatter: Option<string -> EntryValue>): (e: Entry)
    ensures e.isDefault <==> HasPref(params)
    ensures "PREF" !in e.valueInfo
    ensures e.valueInfo.Keys == set p | p in params && p.name != "PREF" && p.name != "__proto__" :: p.name
    ensures forall k, i :: LastNamed(params, k, i) && k != "PREF" && k != "__proto__" ==>
      e.valueInfo[k] == params[i].value
    ensures formatter.None? ==> e.value == Raw(fieldValue)
    ensures formatter.Some? ==> e.value == formatter.value(fieldValue)
  {
    var kept := WithoutPref(params);
    assert (set p | p in kept && p.name != "__proto__" :: p.name)
        == (set p | p in params && p.name != "PREF" && p.name != "__proto__" :: p.name);
    FilteredValueInfo(params);
    Entry(HasPref(params), ValueInfo(kept), if formatter.Some? then formatter.value(fieldValue) else Raw(fieldValue))
  }

  /** `card[attr] = card[attr] || []; card[attr].push(entry)`: exactly one
      entry is appended, earlier ones are kept, the list is created on first
      use, and no other attribute changes. */
  function AppendEntry(card: Card, attr: string, entry: Entry): (r: Card)
    requires attr in card ==> card[attr].Entries?
    ensures r.Keys == card.Keys + {attr}
    ensures forall k :: k in card && k != attr ==> r[k] == card[k]
    ensures r[attr].Entries?
    ensures attr in card ==> r[attr].entries == card[attr].entries + [entry]
    ensures attr !in card ==> r[attr].entries == [entry]
  {
    var old_entries := if attr in card then card[attr].entries else [];
    card[attr := Entries(old_entries + [entry])]
  }

  // structured, addressLine

  /** `values[i] || ''`: the i-th piece, or empty when there is none. */
  function Part(values: seq<string>, i: nat): string {
    if i < |values| then values[i] else ""
  }

  /** `structured(fields)` applied to a value: the i-th field holds the
      i-th `;` piece or `''`; pieces beyond the fields are dropped. */
  function StructuredValue(fields: seq<string>, fieldValue: string): (m: map<string, string>)
    ensures m.Keys == set f | f in fields && f != "__proto__"
    ensures (forall a, b :: 0 <= a < b < |fields| ==> fields[a] != fields[b]) ==>
      forall i :: 0 <= i < |fields| && fields[i] != "__proto__" ==>
        m[fields[i]] == if i < |Split(fieldValue, ';')| then Split(fieldValue, ';')[i] else ""
  {
    StructureEach(fields, Split(fieldValue, ';'));
    Structure(fields, Split(fieldValue, ';'))
  }

  /** The `reduce` over the field names. */
  function Structure(fields: seq<string>, values: seq<string>): (m: map<string, string>)
    ensures m.Keys == set f | f in fields && f != "__proto__"
    decreases |fields|
  {
    if |fields| == 0 then map[]
    else
      var n := |fields| - 1;
      assert forall f :: f in fields <==> f in fields[..n] || f == fields[n] by {
        assert fields == fields[..n] + [fields[n]];
      }
      SetProperty(Structure(fields[..n], values), fields[n], Part(values, n))
  }

  /** With distinct field names, each field holds its positional piece. */
  lemma {:induction false} StructureAt(fields: seq<string>, values: seq<string>, i: nat)
    requires i < |fields| && fields[i] != "__proto__"
    requires forall a, b :: 0 <= a < b < |fields| ==> fields[a] != fields[b]
    ensures Structure(fields, values)[fields[i]] == Part(values, i)
    decreases |fields|
  {
    var n := |fields| - 1;
    if i < n {
      StructureAt(fields[..n], values, i);
    }
  }

  /** `StructureAt` for every field at once. */
  lemma StructureEach(fields: seq<string>, values: seq<string>)
    ensures (forall a, b :: 0 <= a < b < |fields| ==> fields[a] != fields[b]) ==>
      forall i :: 0 <= i < |fields| && fields[i] != "__proto__" ==> Structure(fields, values)[fields[i]] == Part(values, i)
  {
    if forall a, b :: 0 <= a < b < |fields| ==> fields[a] != fields[b] {
      forall i | 0 <= i < |fields| && fields[i] != "__proto__"
        ensures Structure(fields, values)[fields[i]] == Part(values, i)
      {
        StructureAt(fields, values, i);
      }
    }
  }

  /** Structured values round-trip: splitting the `;`-join of one piece per
      field, none holding `;`, gives every field its piece back. */
  lemma StructuredRoundTrip(fields: seq<string>, pieces: seq<string>, i: nat)
    requires |pieces| == |fields| > 0 && i < |fields| && fields[i] != "__proto__"
    requires forall a, b :: 0 <= a < b < |fields| ==> fields[a] != fields[b]
    requires forall k :: 0 <= k < |pieces| ==> ';' !in pieces[k]
    ensures StructuredValue(fields, Join(pieces, ';'))[fields[i]] == pieces[i]
  {
    SplitJoin(pieces, ';');
    StructureAt(fields, pieces, i);
  }

  /** The address formatter of `addressLine`: `postOfficeBox` is the text
      before the first `;`, `number` the second piece if there is one, and
      street, city, region, postal code and country the third to seventh
      pieces, each `''` when the value has fewer pieces. */
  function FormatAddress(fieldValue: string): (a: Address)
    ensures a.postOfficeBox == if ';' in fieldValue then fieldValue[..IndexOf(fieldValue, ';')] else fieldValue
    ensures a.number.Some? <==> ';' in fieldValue
    ensures |Split(fieldValue, ';')| > 1 ==> a.number == Some(Split(fieldValue, ';')[1])
    ensures var names := Split(fieldValue, ';');
      && a.street == (if |names| > 2 then names[2] else "")
      && a.city == (if |names| > 3 then names[3] else "")
      && a.region == (if |names| > 4 then names[4] else "")
      && a.postalCode == (if |names| > 5 then names[5] else "")
      && a.country == (if |names| > 6 then names[6] else "")
  {
    var names := Split(fieldValue, ';');
    SplitHeadAndRest(fieldValue, ';');
    SplitPieces(fieldValue, ';');
    Address(
      names[0],
      if |names| > 1 then Some(names[1]) else None,
      Part(names, 2),
      Part(names, 3),
      Part(names, 4),
      Part(names, 5),
      Part(names, 6))
  }

  /** The formatter as `typedLine` receives it. */
  function AddressFormatter(fieldValue: string): EntryValue {
    Postal(FormatAddress(fieldValue))
  }

  /** The seven parts written with `;` between them. */
  function JoinAddress(a: Address): string
    requires a.number.Some?
  {
    Join([a.postOfficeBox, a.number.value, a.street, a.city, a.region, a.postalCode, a.country], ';')
  }

  /** Addresses round-trip when a number is present and no part holds `;`. */
  lemma AddressRoundTrip(a: Address)
    requires a.number.Some?
    requires ';' !in a.postOfficeBox && ';' !in a.number.value && ';' !in a.street && ';' !in a.city
    requires ';' !in a.region && ';' !in a.postalCode && ';' !in a.country
    ensures FormatAddress(JoinAddress(a)) == a
  {
    var parts := [a.postOfficeBox, a.number.value, a.street, a.city, a.region, a.postalCode, a.country];
    SplitJoin(parts, ';');
  }

  // dateLine

  /** What `dateLine` hands to the `Date` constructor: the three parts of an
      eight-character value, or the whole value. */
  datatype DateInput = YearMonthDay(year: string, month: string, day: string) | Free(text: string)

  /** The host's date construction, validity test and ISO formatting:
      `Some(iso)` for a valid date, `None` for an invalid one. */
  type DateOracle = DateInput -> Option<string>

  /** A 16-character value (date, time and zone) keeps its first eight
      characters. */
  function DateText(fieldValue: string): (t: string)
    ensures |fieldValue| == 16 ==> |t| == 8 && t == fieldValue[..8]
    ensures |fieldValue| != 16 ==> t == fieldValue
  {
    if |fieldValue| == 16 then fieldValue[..8] else fieldValue
  }

  /** What `dateLine` hands to `Date`: an 8- or 16-character value is read
      as four year, two month and two day characters from its first eight;
      any other value is passed whole. */
  function DateInputOf(fieldValue: string): (d: DateInput)
    ensures d.YearMonthDay? <==> |fieldValue| == 8 || |fieldValue| == 16
    ensures d.YearMonthDay? ==>
      |d.year| == 4 && |d.month| == 2 && |d.day| == 2 && d.year + d.month + d.day == fieldValue[..8]
    ensures d.Free? ==> d.text == fieldValue
  {
    var t := DateText(fieldValue);
    if |t| == 8 then
      assert t[..4] + t[4..6] + t[6..8] == t;
      YearMonthDay(t[..4], t[4..6], t[6..8])
    else Free(t)
  }

  /** `dateLine`'s result: the oracle's ISO text, or `null` together with
      one error notice naming the (possibly truncated) value. */
  function ParseDate(fieldValue: string, oracle: DateOracle): (r: (Option<string>, seq<Notice>))
    ensures r.0 == oracle(DateInputOf(fieldValue))
    ensures r.1 != [] <==> r.0.None?
    ensures r.0.None? ==>
      r.1 == [Error("invalid date format " + if |fieldValue| == 16 then fieldValue[..8] else fieldValue)]
  {
    var d := oracle(DateInputOf(fieldValue));
    if d.None? then (None, [Error("invalid date format " + DateText(fieldValue))]) else (d, [])
  }

  /** The time part of a 16-character value is ignored: the value is read
      exactly as its date part alone. */
  lemma DateTimeIgnored(fieldValue: string, oracle: DateOracle)
    requires |fieldValue| == 16
    ensures ParseDate(fieldValue, oracle) == ParseDate(fieldValue[..8], oracle)
  {
    assert fieldValue[..8][..8] == fieldValue[..8];
  }

  /** Year, month and day digits written one after the other (and followed
      by an eight-character time, or not) reach `Date` unchanged. */
  lemma DateRoundTrip(year: string, month: string, day: string, time: string)
    requires |year| == 4 && |month| == 2 && |day| == 2 && (|time| == 0 || |time| == 8)
    ensures DateInputOf(year + month + day + time) == YearMonthDay(year, month, day)
  {
    var v := year + month + day + time;
    assert v[..8] == year + month + day;
    var d := DateInputOf(v);
    assert d.year + d.month + d.day == year + month + day;
    assert d.year == (year + month + day)[..4];
    assert d.month == (year + month + day)[4..6];
    assert d.day == (year + month + day)[6..8];
  }
}
