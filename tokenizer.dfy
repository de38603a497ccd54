/** The tokenizing half of `feedData` (parser.js:164-189) and
    `removeWeirdItemPrefix`: one logical line becomes an upper-cased field
    name, an optional parameter list and the raw value. */
module Tokenizer {
  import opened Wrappers
  import opened Text
  import opened Values

  /** The end of the longest run of characters that `.` matches, starting
      at `from`. */
  function RunEnd(s: string, from: nat): (e: nat)
    requires from <= |s|
    ensures from <= e <= |s|
    ensures forall k :: from <= k < e ==> !IsLineTerminator(s[k])
    ensures e < |s| ==> IsLineTerminator(s[e])
    decreases |s| - from
  {
    if from == |s| || IsLineTerminator(s[from]) then from else RunEnd(s, from + 1)
  }

  // removeWeirdItemPrefix

  predicate StartsWithItem(line: string) {
    |line| >= 4 && line[..4] == "item"
  }

  /** `/item\d\./` matches at position `i`. */
  predicate ItemAt(s: string, i: nat) {
    i + 6 <= |s| && s[i..i + 4] == "item" && IsDigit(s[i + 4]) && s[i + 5] == '.'
  }

  /** The leftmost position at or after `from` where `/item\d\./` matches. */
  function FindItem(s: string, from: nat): (r: Option<nat>)
    requires from <= |s|
    ensures r.Some? ==> from <= r.value && ItemAt(s, r.value)
    ensures r.Some? ==> forall j :: from <= j < r.value ==> !ItemAt(s, j)
    ensures r.None? ==> forall j :: from <= j ==> !ItemAt(s, j)
    decreases |s| - from
  {
    if from + 6 > |s| then None
    else if ItemAt(s, from) then Some(from)
    else FindItem(s, from + 1)
  }

  /** `removeWeirdItemPrefix`: a line whose first four characters are
      "item" is replaced by the group `(.*)` of the leftmost match of
      `/item\d\.(.*)/`, which stops at the first line terminator; with no
      match the original code dereferences `null` and throws. Any other line
      is kept. */
  function RemoveItemPrefix(line: string): (r: Result<string, Crash>)
    ensures !StartsWithItem(line) ==> r == Success(line)
    ensures StartsWithItem(line) ==> (r.Failure? <==> forall j :: !ItemAt(line, j))
    ensures r.Failure? ==> r.error == NoItemPrefixMatch
    ensures StartsWithItem(line) && r.Success? ==>
      exists i: nat :: && ItemAt(line, i)
                  && (forall j :: 0 <= j < i ==> !ItemAt(line, j))
                  && r.value == line[i + 6..RunEnd(line, i + 6)]
    ensures r.Success? ==> forall k :: 0 <= k < |r.value| ==> r.value[k] in line
  {
    if StartsWithItem(line) then
      match FindItem(line, 0)
      case None => Failure(NoItemPrefixMatch)
      case Some(i) =>
        var v := line[i + 6..RunEnd(line, i + 6)];
        assert forall k :: 0 <= k < |v| ==> v[k] == line[i + 6 + k];
        Success(v)
    else Success(line)
  }

  // name and value

  /** `line.split(':')[0]`. */
  function Head(line: string): string {
    Split(line, ':')[0]
  }

  /** `line.split(':').slice(1).join(':')`. */
  function FieldValue(line: string): string {
    Join(Split(line, ':')[1..], ':')
  }

  /** The value is everything after the first colon, colons included, and
      the head everything before it; without a colon the head is the line
      and the value is empty. */
  lemma HeadAndValue(line: string)
    ensures ':' in line ==> Head(line) + ":" + FieldValue(line) == line && ':' !in Head(line)
    ensures ':' in line ==> FieldValue(line) == line[IndexOf(line, ':') + 1..]
    ensures ':' !in line ==> Head(line) == line && FieldValue(line) == ""
  {
    SplitHeadAndRest(line, ':');
    if ':' in line {
      var i := IndexOf(line, ':');
      assert line == line[..i] + ":" + line[i + 1..];
    }
  }

  /** The guard of parser.js:176, with `indexOf` returning -1 for "absent". */
  predicate HasParams(line: string) {
    IndexOf(Head(line), ';') >= 0 && IndexOf(line, ';') < IndexOf(line, ':')
  }

  /** The guard holds exactly when the line has a colon and a semicolon
      before it. */
  lemma HasParamsIff(line: string)
    ensures HasParams(line) <==> ':' in line && ';' in line[..IndexOf(line, ':')]
  {
    HeadAndValue(line);
    if ':' in line {
      var i := IndexOf(line, ':');
      assert Head(line) == line[..i] by {
        SplitHeadAndRest(line, ':');
      }
      if ';' in line[..i] {
        var k :| 0 <= k < i && line[..i][k] == ';';
        var f := IndexOf(line, ';');
        forall j | 0 <= j < f
          ensures line[j] != ';'
        {
          assert line[..f][j] == line[j];
        }
        assert f <= k;
      }
    }
  }

  // parameters

  /** `/"(.*)"/` can match from position `i` to position `j`. */
  ghost predicate QuotePair(s: string, i: int, j: int) {
    0 <= i < j < |s| && s[i] == '"' && s[j] == '"'
    && forall k :: i < k < j ==> !IsLineTerminator(s[k])
  }

  /** The last `"` in `s[lo..hi]`. */
  function LastQuote(s: string, lo: nat, hi: nat): (r: Option<nat>)
    requires lo <= hi <= |s|
    ensures r.Some? ==> lo <= r.value < hi && s[r.value] == '"'
    ensures r.Some? ==> forall k :: r.value < k < hi ==> s[k] != '"'
    ensures r.None? ==> forall k :: lo <= k < hi ==> s[k] != '"'
    decreases hi - lo
  {
    if lo == hi then None
    else if s[hi - 1] == '"' then Some(hi - 1)
    else LastQuote(s, lo, hi - 1)
  }

  /** The quotes that pair with the `"` at `i` are the `"` before the
      next line terminator. */
  lemma QuotePairsFrom(s: string, i: nat)
    requires i < |s| && s[i] == '"'
    ensures forall j :: QuotePair(s, i, j) <==> i + 1 <= j < RunEnd(s, i + 1) && s[j] == '"'
  {
    var e := RunEnd(s, i + 1);
    forall j | QuotePair(s, i, j)
      ensures j < e
    {
      assert forall k :: i + 1 <= k <= j ==> !IsLineTerminator(s[k]);
    }
  }

  /** The match of `/"(.*)"/`: the leftmost opening quote that has a
      partner, and the greedy, that is last, partner. */
  function QuoteMatch(s: string, from: nat): (r: Option<(nat, nat)>)
    requires from <= |s|
    ensures r.Some? ==> from <= r.value.0 && QuotePair(s, r.value.0, r.value.1)
    ensures r.Some? ==> forall i, j :: from <= i < r.value.0 ==> !QuotePair(s, i, j)
    ensures r.Some? ==> forall j :: r.value.1 < j ==> !QuotePair(s, r.value.0, j)
    ensures r.None? ==> forall i, j :: from <= i ==> !QuotePair(s, i, j)
    decreases |s| - from
  {
    if from == |s| then None
    else if s[from] == '"' then
      QuotePairsFrom(s, from);
      var close := LastQuote(s, from + 1, RunEnd(s, from + 1));
      if close.Some? then Some((from, close.value))
      else QuoteMatch(s, from + 1)
    else QuoteMatch(s, from + 1)
  }

  /** The pair `/"(.*)"/` takes: no pair opens further left, and no
      partner of the opening quote lies further right. */
  ghost predicate FirstQuotePair(s: string, i: int, j: int) {
    && QuotePair(s, i, j)
    && (forall i', j' :: 0 <= i' < i ==> !QuotePair(s, i', j'))
    && (forall j' :: j < j' ==> !QuotePair(s, i, j'))
  }

  /** There is at most one such pair. */
  lemma FirstQuotePairUnique(s: string, i: int, j: int, i': int, j': int)
    requires FirstQuotePair(s, i, j) && FirstQuotePair(s, i', j')
    ensures i == i' && j == j'
  {
  }

  /** `value.replace(/"(.*)"/, '$1')`: the opening and the closing quote of
      the match are deleted and nothing else; without a match the value is
      kept. */
  function StripQuotes(v: string): (r: string)
    ensures (forall i, j :: !QuotePair(v, i, j)) ==> r == v
    ensures (exists i, j :: QuotePair(v, i, j)) ==> |r| == |v| - 2
    ensures forall i, j :: FirstQuotePair(v, i, j) ==> r == v[..i] + v[i + 1..j] + v[j + 1..]
  {
    match QuoteMatch(v, 0)
    case None => v
    case Some((i, j)) =>
      assert FirstQuotePair(v, i, j);
      forall i', j' | FirstQuotePair(v, i', j')
        ensures i' == i && j' == j
      {
        FirstQuotePairUnique(v, i, j, i', j');
      }
      v[..i] + v[i + 1..j] + v[j + 1..]
  }

  /** The text between the first and the second `=` of a segment (to its
      end when there is no second one). */
  function SecondPiece(segment: string): string
    requires '=' in segment
  {
    var rest := segment[IndexOf(segment, '=') + 1..];
    if '=' in rest then rest[..IndexOf(rest, '=')] else rest
  }

  /** One parameter segment `name=value`: `info = segment.split('=')`,
      the lower-cased `info[0]` and `info[1]` without its quotes. A segment
      without `=` leaves `info[1]` undefined and the original code throws.
      So a segment yields a parameter exactly when it holds `=`; its name is
      the lower-cased text before the first `=`, its value the text up to
      the second `=` with one quote pair removed. */
  function ParseParam(segment: string): (r: Option<Param>)
    ensures r.Some? <==> '=' in segment
    ensures '=' in segment ==>
      r == Some(Param(Lower(segment[..IndexOf(segment, '=')]), StripQuotes(SecondPiece(segment))))
  {
    EqualsPieces(segment);
    var info := Split(segment, '=');
    if |info| < 2 then None
    else Some(Param(Lower(info[0]), StripQuotes(info[1])))
  }

  /** The first two pieces of `segment.split('=')`, by index. */
  lemma EqualsPieces(segment: string)
    ensures |Split(segment, '=')| >= 2 <==> '=' in segment
    ensures '=' in segment ==>
      Split(segment, '=')[0] == segment[..IndexOf(segment, '=')] && Split(segment, '=')[1] == SecondPiece(segment)
  {
    if '=' in segment {
      SplitAtFirst(segment, '=');
      SplitHeadAndRest(segment[IndexOf(segment, '=') + 1..], '=');
    } else {
      SplitNoSeparator(segment, '=');
    }
  }

  /** `typeInfo.slice(1).map(...)`: every segment parsed, or a crash if one
      of them holds no `=`. */
  function ParseParams(segments: seq<string>): (r: Option<seq<Param>>)
    ensures r.Some? <==> forall i :: 0 <= i < |segments| ==> ParseParam(segments[i]).Some?
    ensures r.Some? ==> |r.value| == |segments|
    ensures r.Some? ==> forall i :: 0 <= i < |segments| ==> ParseParam(segments[i]) == Some(r.value[i])
    decreases |segments|
  {
    if |segments| == 0 then Some([])
    else
      match ParseParam(segments[0])
      case None => None
      case Some(p) =>
        match ParseParams(segments[1..])
        case None =>
          assert forall i :: 1 <= i < |segments| ==> segments[i] == segments[1..][i - 1];
          None
        case Some(ps) => Some([p] + ps)
  }

  // the whole line

  /** A tokenized line: upper-cased field name, the parameter list when the
      line has a parameter section, and the raw value. */
  datatype Token = Token(name: string, params: Option<seq<Param>>, value: string)

  predicate NoUpperName(p: Param) {
    forall k :: 0 <= k < |p.name| ==> !IsUpper(p.name[k])
  }

  /** Tokenizing a line (parser.js:168-189): the `item` prefix comes off,
      then the rest is tokenized. */
  function Tokenize(line: string): (r: Result<Token, Crash>)
    ensures r.Success? ==> forall k :: 0 <= k < |r.value.name| ==> !IsLower(r.value.name[k])
    ensures r.Success? && r.value.params.Some? ==> forall p :: p in r.value.params.value ==> NoUpperName(p)
    ensures r.Failure? ==> r.error == NoItemPrefixMatch || r.error == ParameterWithoutEquals
    ensures RemoveItemPrefix(line).Failure? ==> r == Failure(NoItemPrefixMatch)
    ensures RemoveItemPrefix(line).Success? ==> r == TokenizeField(RemoveItemPrefix(line).value)
  {
    match RemoveItemPrefix(line)
    case Failure(e) => Failure(e)
    case Success(l) => TokenizeField(l)
  }

  /** Tokenizing a line without its `item` prefix. The field name carries
      no lower-case letter, no parameter name an upper-case one, and the
      only crash is a parameter without `=`. */
  function TokenizeField(l: string): (r: Result<Token, Crash>)
    ensures r.Success? ==> forall k :: 0 <= k < |r.value.name| ==> !IsLower(r.value.name[k])
    ensures r.Success? && r.value.params.Some? ==> forall p :: p in r.value.params.value ==> NoUpperName(p)
    ensures r.Failure? ==> r.error == ParameterWithoutEquals
  {
    var fieldName := Head(l);
    var value := FieldValue(l);
    if HasParams(l) then
      var typeInfo := Split(fieldName, ';');
      match ParseParams(typeInfo[1..])
      case None => Failure(ParameterWithoutEquals)
      case Some(ps) =>
        assert forall p :: p in ps ==> NoUpperName(p) by {
          forall p | p in ps ensures NoUpperName(p) {
            var i :| 0 <= i < |ps| && ps[i] == p;
            assert ParseParam(typeInfo[1..][i]) == Some(p);
          }
        }
        Success(Token(Upper(typeInfo[0]), Some(ps), value))
    else Success(Token(Upper(fieldName), None, value))
  }

  /** What a line that tokenizes becomes, in terms of its prefix-stripped
      text `l`: the value follows the first colon; parameters exist exactly
      when a semicolon precedes that colon, and then the field name is the
      text before the first semicolon and the i-th parameter comes from the
      i-th segment after it; otherwise the field name is all of the text
      before the colon. */
  lemma TokenizeSpec(l: string)
    ensures TokenizeField(l).Success? ==>
      var t := TokenizeField(l).value;
      && (':' in l ==> l == Head(l) + ":" + t.value && ':' !in Head(l))
      && (':' !in l ==> t.value == "")
      && (t.params.Some? <==> ':' in l && ';' in Head(l))
      && (t.params.Some? ==> t.name == Upper(Head(l)[..IndexOf(Head(l), ';')]))
      && (t.params.Some? ==>
            var segments := Split(Head(l), ';')[1..];
            |t.params.value| == |segments|
            && forall i :: 0 <= i < |segments| ==> ParseParam(segments[i]) == Some(t.params.value[i]))
      && (t.params.None? ==> t.name == Upper(Head(l)))
  {
    HeadAndValue(l);
    HasParamsIff(l);
    if ':' in l {
      assert Head(l) == l[..IndexOf(l, ':')];
    }
    SplitHeadAndRest(Head(l), ';');
  }

  /** A line without its prefix fails to tokenize exactly when it has
      parameters and one of their segments lacks `=`. */
  lemma TokenizeFailure(l: string)
    ensures TokenizeField(l) == Failure(ParameterWithoutEquals) <==>
      HasParams(l) && exists i :: 1 <= i < |Split(Head(l), ';')| && '=' !in Split(Head(l), ';')[i]
  {
    var segments := Split(Head(l), ';');
    var rest := segments[1..];
    if HasParams(l) {
      if exists i :: 1 <= i < |segments| && '=' !in segments[i] {
        var i :| 1 <= i < |segments| && '=' !in segments[i];
        assert rest[i - 1] == segments[i];
        assert ParseParam(rest[i - 1]).None?;
        assert ParseParams(rest) == None;
        assert TokenizeField(l) == Failure(ParameterWithoutEquals);
        assert 1 <= i < |Split(Head(l), ';')| && '=' !in Split(Head(l), ';')[i];
      } else {
        forall k | 0 <= k < |rest|
          ensures ParseParam(rest[k]).Some?
        {
          assert rest[k] == segments[k + 1];
        }
        assert ParseParams(rest).Some?;
        assert TokenizeField(l).Success?;
      }
    }
  }
}
