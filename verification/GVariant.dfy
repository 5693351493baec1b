/**
 * String arrays in GVariant's text form: what `gsettings set` is given and what `gsettings get` prints.
 * Strings are UTF-16 units, so every list of JavaScript strings is covered.
 */
module GVariant {
  import opened Utf16
  import opened Wrappers

  const TAB: Unit := 9
  const NEWLINE: Unit := 10
  const RETURN: Unit := 13
  const SPACE: Unit := 32
  const DOUBLE_QUOTE: Unit := 34
  const QUOTE: Unit := 39
  const COMMA: Unit := 44
  const OPEN: Unit := 91
  const BACKSLASH: Unit := 92
  const CLOSE: Unit := 93
  const LETTER_N: Unit := 110
  const LETTER_R: Unit := 114
  const LETTER_T: Unit := 116
  const LETTER_U: Unit := 117
  /** "@as" */
  const EMPTY_TYPE: Text := [64, 97, 115]

  /** What a regular expression's `.` does not match. */
  predicate IsLineEnd(u: int) { u == 10 || u == 13 || u == 0x2028 || u == 0x2029 }

  predicate IsHex(u: int) { 48 <= u <= 57 || 65 <= u <= 70 || 97 <= u <= 102 }

  function HexValue(u: Unit): (v: nat)
    requires IsHex(u)
    ensures v < 16
  {
    if u <= 57 then u - 48 else if u <= 70 then u - 55 else u - 87
  }

  // ----- printing -----

  /** Backslashes doubled, then quotes given a backslash. */
  function Escaped(item: Text): Text {
    if item == [] then []
    else (if item[0] == BACKSLASH || item[0] == QUOTE then [BACKSLASH, item[0]] else [item[0]]) + Escaped(item[1..])
  }

  function Quoted(item: Text): Text { [QUOTE] + Escaped(item) + [QUOTE] }

  function CommaJoined(list: seq<Text>): Text {
    if list == [] then []
    else if |list| == 1 then Quoted(list[0])
    else Quoted(list[0]) + [COMMA, SPACE] + CommaJoined(list[1..])
  }

  function StringArray(list: seq<Text>): Text {
    if list == [] then EMPTY_TYPE + [SPACE, OPEN, CLOSE] else [OPEN] + CommaJoined(list) + [CLOSE]
  }

  // ----- parsing -----

  /** `replace(/^@as\s+/, "")` */
  function WithoutType(t: Text): Text {
    if EMPTY_TYPE <= t && SpacesAt(t, 3) > 0 then t[3 + SpacesAt(t, 3)..] else t
  }

  predicate IsUnicodeEscape(body: Text) {
    |body| >= 6 && body[1] == LETTER_U && IsHex(body[2]) && IsHex(body[3]) && IsHex(body[4]) && IsHex(body[5])
  }

  function CodeUnit(body: Text): Unit
    requires IsUnicodeEscape(body)
  {
    HexValue(body[2]) * 4096 + HexValue(body[3]) * 256 + HexValue(body[4]) * 16 + HexValue(body[5])
  }

  function Named(u: Unit): Unit {
    if u == LETTER_N then NEWLINE else if u == LETTER_T then TAB else if u == LETTER_R then RETURN else u
  }

  /** A string body unescaped: the leftmost escapes first, a backslash before a line end kept as it is. */
  function Unescape(body: Text): Text {
    if body == [] then []
    else if body[0] != BACKSLASH || |body| == 1 then [body[0]] + Unescape(body[1..])
    else if IsUnicodeEscape(body) then [CodeUnit(body)] + Unescape(body[6..])
    else if IsLineEnd(body[1]) then [body[0]] + Unescape(body[1..])
    else [Named(body[1])] + Unescape(body[2..])
  }

  /**
   * How far a string body reaches: `(?:[^q\\]|\\.)*`. The two alternatives start on different units and
   * neither matches a bare quote, so the greedy match is the only one.
   */
  function BodyLength(t: Text, at: nat, quote: Unit): (n: nat)
    requires at <= |t|
    ensures at + n <= |t|
    decreases |t| - at
  {
    if at == |t| || t[at] == quote then 0
    else if t[at] != BACKSLASH then 1 + BodyLength(t, at + 1, quote)
    else if at + 1 < |t| && !IsLineEnd(t[at + 1]) then 2 + BodyLength(t, at + 2, quote)
    else 0
  }

  /** What the regular expression's starred group can match. */
  predicate IsBody(body: Text, quote: Unit) {
    || body == []
    || (body[0] != quote && body[0] != BACKSLASH && IsBody(body[1..], quote))
    || (|body| >= 2 && body[0] == BACKSLASH && !IsLineEnd(body[1]) && IsBody(body[2..], quote))
  }

  /** Wherever a body is followed by its quote, that is the one body the scan finds: no backtracking is lost. */
  lemma {:induction false} BodyIsUnique(t: Text, at: nat, n: nat, quote: Unit)
    requires at + n < |t| && t[at + n] == quote && quote != BACKSLASH
    requires IsBody(t[at..at + n], quote)
    ensures BodyLength(t, at, quote) == n
    decreases n
  {
    if n > 0 {
      assert t[at] == t[at..at + n][0];
      if t[at] != BACKSLASH {
        assert t[at..at + n][1..] == t[at + 1..at + n];
        BodyIsUnique(t, at + 1, n - 1, quote);
      } else {
        assert t[at + 1] == t[at..at + n][1];
        assert t[at..at + n][2..] == t[at + 2..at + n];
        BodyIsUnique(t, at + 2, n - 2, quote);
      }
    }
  }

  lemma {:induction false} BodyLengthIsBody(t: Text, at: nat, quote: Unit)
    requires at <= |t|
    ensures IsBody(t[at..at + BodyLength(t, at, quote)], quote)
    decreases |t| - at
  {
    var n := BodyLength(t, at, quote);
    if n > 0 {
      var k := if t[at] != BACKSLASH then 1 else 2;
      BodyLengthIsBody(t, at + k, quote);
      assert t[at..at + n][k..] == t[at + k..at + n];
    }
  }

  /** The quoted string at `at`: the length of its body, or nothing when there is no whole string there. */
  function QuotedAt(t: Text, at: nat): Option<nat>
    requires at <= |t|
  {
    if at == |t| || (t[at] != QUOTE && t[at] != DOUBLE_QUOTE) then None
    else
      var n := BodyLength(t, at + 1, t[at]);
      if at + 1 + n < |t| && t[at + 1 + n] == t[at] then Some(n) else None
  }

  /** A quoted string is found exactly where the pattern has a match, and it is that match. */
  lemma QuotedIsMatch(t: Text, at: nat, n: nat)
    requires at < |t| && (t[at] == QUOTE || t[at] == DOUBLE_QUOTE)
    ensures QuotedAt(t, at) == Some(n)
        <==> at + 1 + n < |t| && t[at + 1 + n] == t[at] && IsBody(t[at + 1..at + 1 + n], t[at])
  {
    hide BodyLength, IsBody;
    BodyLengthIsBody(t, at + 1, t[at]);
    if at + 1 + n < |t| && t[at + 1 + n] == t[at] && IsBody(t[at + 1..at + 1 + n], t[at]) {
      BodyIsUnique(t, at + 1, n, t[at]);
    }
  }

  /** `\s*(,\s*)?`: how many units it takes, and whether there was a comma. */
  function SeparatorAt(t: Text, at: nat): (r: (nat, bool))
    requires at <= |t|
    ensures at + r.0 <= |t|
  {
    var n := SpacesAt(t, at);
    if at + n < |t| && t[at + n] == COMMA then (n + 1 + SpacesAt(t, at + n + 1), true) else (n, false)
  }

  /** The strings found so far and those from `at` to the end, or nothing when the rest is not a list of strings. */
  function ItemsFrom(t: Text, at: nat, found: seq<Text>): Option<seq<Text>>
    requires at <= |t|
    decreases |t| - at
  {
    if at == |t| then Some(found)
    else
      var q := QuotedAt(t, at);
      if q.None? then None
      else
        var item := Unescape(t[at + 1..at + 1 + q.value]);
        var after := at + q.value + 2;
        var sep := SeparatorAt(t, after);
        if !sep.1 && after + sep.0 < |t| then None else ItemsFrom(t, after + sep.0, found + [item])
  }

  function Inner(text: Text): Option<Text> {
    if |text| >= 2 && text[0] == OPEN && text[|text| - 1] == CLOSE then Some(Trim(text[1..|text| - 1])) else None
  }

  function Parsed(output: Text): Option<seq<Text>> {
    var inner := Inner(WithoutType(Trim(output)));
    if inner.None? then None else ItemsFrom(inner.value, 0, [])
  }

  method GvariantStrings(output: Text) returns (found: Option<seq<Text>>)
    ensures found == Parsed(output)
  {
    hide QuotedAt, SeparatorAt, Unescape, Trim, WithoutType;
    var text := WithoutType(Trim(output));
    var body := Inner(text);
    if body.None? {
      return None;
    }
    var inner := body.value;
    if inner == [] {
      return Some([]);
    }
    var strings: seq<Text> := [];
    var at := 0;
    while at < |inner|
      invariant 0 <= at <= |inner|
      invariant ItemsFrom(inner, 0, []) == ItemsFrom(inner, at, strings)
      decreases |inner| - at
    {
      var quoted := QuotedAt(inner, at);
      if quoted.None? {
        return None;
      }
      QuotedFits(inner, at);
      strings := strings + [Unescape(inner[at + 1..at + 1 + quoted.value])];
      at := at + quoted.value + 2;
      var sep := SeparatorAt(inner, at);
      at := at + sep.0;
      if !sep.1 && at < |inner| {
        return None;
      }
    }
    found := Some(strings);
  }

  lemma QuotedFits(t: Text, at: nat)
    requires at <= |t| && QuotedAt(t, at).Some?
    ensures at + QuotedAt(t, at).value + 2 <= |t|
  {
  }

  // ----- the round trip -----

  lemma {:induction false} UnescapeEscaped(item: Text)
    ensures Unescape(Escaped(item)) == item
  {
    if item != [] {
      UnescapeEscaped(item[1..]);
      var e := Escaped(item);
      if item[0] == BACKSLASH || item[0] == QUOTE {
        assert e[2..] == Escaped(item[1..]);
      } else {
        assert e[1..] == Escaped(item[1..]);
      }
    }
  }

  /** A printed string is a body whatever it holds, so it ends at its own closing quote. */
  lemma {:induction false} EscapedIsBody(item: Text)
    ensures IsBody(Escaped(item), QUOTE)
  {
    if item != [] {
      EscapedIsBody(item[1..]);
      var k := if item[0] == BACKSLASH || item[0] == QUOTE then 2 else 1;
      assert Escaped(item)[k..] == Escaped(item[1..]);
    }
  }

  /** A printed string is read whole, and read back. */
  lemma PrintedString(t: Text, at: nat, item: Text, rest: Text)
    requires at <= |t| && t[at..] == Quoted(item) + rest
    ensures QuotedAt(t, at) == Some(|Escaped(item)|)
    ensures at + |Escaped(item)| + 2 <= |t| && t[at + |Escaped(item)| + 2..] == rest
    ensures Unescape(t[at + 1..at + 1 + |Escaped(item)|]) == item
  {
    hide Escaped, Unescape, BodyLength, IsBody;
    var n := |Escaped(item)|;
    var tail := t[at..];
    assert tail == [QUOTE] + Escaped(item) + [QUOTE] + rest;
    assert t[at] == tail[0] == QUOTE && t[at + 1 + n] == tail[1 + n] == QUOTE;
    assert t[at + 1..at + 1 + n] == tail[1..1 + n] == Escaped(item);
    EscapedIsBody(item);
    BodyIsUnique(t, at + 1, n, QUOTE);
    UnescapeEscaped(item);
    assert t[at + n + 2..] == tail[n + 2..] == rest;
  }

  lemma PrintedSeparator(t: Text, at: nat, rest: Text)
    requires at <= |t| && t[at..] == [COMMA, SPACE] + rest && rest != [] && rest[0] == QUOTE
    ensures SeparatorAt(t, at) == (2, true) && at + 2 <= |t| && t[at + 2..] == rest
  {
    assert t[at] == t[at..][0] && t[at + 1] == t[at..][1] && t[at + 2] == t[at..][2];
    assert t[at + 2..] == t[at..][2..];
    assert SpacesAt(t, at) == 0 && SpacesAt(t, at + 2) == 0 && SpacesAt(t, at + 1) == 1;
  }

  /** One printed string and its separator are one turn of the parser. */
  lemma OnePrinted(t: Text, at: nat, item: Text, rest: Text, found: seq<Text>)
    requires at <= |t| && t[at..] == Quoted(item) + [COMMA, SPACE] + rest && rest != [] && rest[0] == QUOTE
    ensures var next := at + |Escaped(item)| + 4;
            next <= |t| && t[next..] == rest && ItemsFrom(t, at, found) == ItemsFrom(t, next, found + [item])
  {
    hide Quoted, QuotedAt, SeparatorAt, Unescape, Escaped;
    assert Quoted(item) + [COMMA, SPACE] + rest == Quoted(item) + ([COMMA, SPACE] + rest);
    PrintedString(t, at, item, [COMMA, SPACE] + rest);
    PrintedSeparator(t, at + |Escaped(item)| + 2, rest);
  }

  lemma LastPrinted(t: Text, at: nat, item: Text, found: seq<Text>)
    requires at <= |t| && t[at..] == Quoted(item)
    ensures ItemsFrom(t, at, found) == Some(found + [item])
  {
    hide Quoted, QuotedAt, Unescape, Escaped;
    assert Quoted(item) + [] == Quoted(item);
    PrintedString(t, at, item, []);
    var after := at + |Escaped(item)| + 2;
    assert |t[after..]| == |t| - after == 0;
  }

  lemma {:induction false} ItemsOfPrinted(t: Text, at: nat, list: seq<Text>, found: seq<Text>)
    requires list != [] && at <= |t| && t[at..] == CommaJoined(list)
    ensures ItemsFrom(t, at, found) == Some(found + list)
    decreases |list|
  {
    var item, rest := list[0], list[1..];
    assert list == [item] + rest;
    if rest == [] {
      assert list == [item];
      hide *;
      LastPrinted(t, at, item, found);
    } else {
      CommaJoinedEnds(rest);
      assert CommaJoined(list) == Quoted(item) + [COMMA, SPACE] + CommaJoined(rest);
      hide *;
      OnePrinted(t, at, item, CommaJoined(rest), found);
      ItemsOfPrinted(t, at + |Escaped(item)| + 4, rest, found + [item]);
      assert found + [item] + rest == found + list;
    }
  }

  lemma TrimNothing(t: Text)
    requires t != [] && !IsSpace(t[0]) && !IsSpace(t[|t| - 1])
    ensures Trim(t) == t
  {
    assert t[0..] == t;
  }

  lemma {:induction false} CommaJoinedEnds(list: seq<Text>)
    requires list != []
    ensures |CommaJoined(list)| >= 2 && CommaJoined(list)[0] == QUOTE
    ensures CommaJoined(list)[|CommaJoined(list)| - 1] == QUOTE
  {
    if |list| > 1 {
      CommaJoinedEnds(list[1..]);
    }
  }

  lemma EmptyRoundTrip()
    ensures Parsed(StringArray([])) == Some([])
  {
    var text := StringArray([]);
    TrimNothing(text);
    assert text == [64, 97, 115, 32, 91, 93];
    assert SpacesAt(text, 4) == 0 && SpacesAt(text, 3) == 1;
    assert WithoutType(text) == [OPEN, CLOSE];
    assert Inner([OPEN, CLOSE]) == Some([]);
  }

  /** Reading back what was printed gives the list, whatever its strings hold. */
  lemma RoundTrip(list: seq<Text>)
    ensures Parsed(StringArray(list)) == Some(list)
  {
    if list == [] {
      EmptyRoundTrip();
    } else {
      var text := StringArray(list);
      TrimNothing(text);
      CommaJoinedEnds(list);
      var inner := CommaJoined(list);
      assert text[0] != EMPTY_TYPE[0];
      assert WithoutType(text) == text;
      assert text[1..|text| - 1] == inner;
      TrimNothing(inner);
      assert inner[0..] == inner;
      ItemsOfPrinted(inner, 0, list, []);
      assert [] + list == list;
    }
  }

  /** Printing tells any two lists apart. */
  lemma PrintingIsInjective(a: seq<Text>, b: seq<Text>)
    requires StringArray(a) == StringArray(b)
    ensures a == b
  {
    RoundTrip(a);
    RoundTrip(b);
  }

  // ----- everything the parser accepts -----

  /** Escapes one at a time: named ones, any other character for itself, and a backslash that escapes nothing. */
  lemma UnescapeIs(u: Unit, rest: Text)
    ensures Unescape([92, 110] + rest) == [10] + Unescape(rest)
    ensures Unescape([92, 116] + rest) == [9] + Unescape(rest)
    ensures Unescape([92, 114] + rest) == [13] + Unescape(rest)
    ensures u != 110 && u != 116 && u != 114 && u != 117 && !IsLineEnd(u) ==>
              Unescape([92, u] + rest) == [u] + Unescape(rest)
    ensures IsLineEnd(u) ==> Unescape([92, u] + rest) == [92] + Unescape([u] + rest)
    ensures u != 92 ==> Unescape([u] + rest) == [u] + Unescape(rest)
    ensures Unescape([92]) == [92]
  {
    EscapeOne(110, rest);
    EscapeOne(116, rest);
    EscapeOne(114, rest);
    EscapeOne(u, rest);
    assert ([u] + rest)[1..] == rest;
    assert [92][1..] == [];
  }

  lemma EscapeOne(u: Unit, rest: Text)
    ensures u != 117 && !IsLineEnd(u) ==> Unescape([92, u] + rest) == [Named(u)] + Unescape(rest)
    ensures IsLineEnd(u) ==> Unescape([92, u] + rest) == [92] + Unescape([u] + rest)
  {
    var body := [92, u] + rest;
    assert body[1..] == [u] + rest && body[2..] == rest && body[0] == 92 && body[1] == u;
  }

  function HexDigit(v: nat, upper: bool): Unit
    requires v < 16
  {
    if v < 10 then 48 + v else if upper then 55 + v else 87 + v
  }

  lemma HexDigitRead(v: nat, upper: bool)
    requires v < 16
    ensures IsHex(HexDigit(v, upper)) && HexValue(HexDigit(v, upper)) == v
  {
  }

  function HexEscape(u: Unit, upper: bool): Text {
    [92, 117, HexDigit(u / 4096, upper), HexDigit(u / 256 % 16, upper), HexDigit(u / 16 % 16, upper),
     HexDigit(u % 16, upper)]
  }

  lemma FourDigits(u: Unit)
    ensures u == u / 4096 * 4096 + u / 256 % 16 * 256 + u / 16 % 16 * 16 + u % 16
  {
    var g, h := u / 16, u / 256;
    assert g / 16 == h;
    assert h / 16 == u / 4096;
    assert u == 16 * g + u % 16;
    assert g == 16 * h + g % 16;
    assert h == 16 * (h / 16) + h % 16;
  }

  /** A unit written as four hexadecimal digits, in either case, is read back as itself. */
  lemma HexEscapeRead(u: Unit, upper: bool, rest: Text)
    ensures Unescape(HexEscape(u, upper) + rest) == [u] + Unescape(rest)
  {
    HexDigitRead(u / 4096, upper);
    HexDigitRead(u / 256 % 16, upper);
    HexDigitRead(u / 16 % 16, upper);
    HexDigitRead(u % 16, upper);
    FourDigits(u);
    hide HexDigit, HexValue;
    var body := HexEscape(u, upper) + rest;
    assert body[6..] == rest;
    assert IsUnicodeEscape(body) && CodeUnit(body) == u;
  }

  /** A string in quotes, and what separates it from the next. */
  datatype Part = Part(quote: Unit, body: Text, before: Text, comma: bool, after: Text)

  function PartText(p: Part): Text {
    [p.quote] + p.body + [p.quote] + p.before + (if p.comma then [44] + p.after else [])
  }

  /** Only the last may go without a comma. */
  predicate IsPart(p: Part, last: bool) {
    && (p.quote == 39 || p.quote == 34) && IsBody(p.body, p.quote)
    && AllSpace(p.before) && AllSpace(p.after)
    && (!p.comma ==> last && p.after == [])
  }

  predicate AreParts(ps: seq<Part>) { ps == [] || (IsPart(ps[0], |ps| == 1) && AreParts(ps[1..])) }

  function PartsText(ps: seq<Part>): Text { if ps == [] then [] else PartText(ps[0]) + PartsText(ps[1..]) }

  function Strings(ps: seq<Part>): seq<Text> {
    if ps == [] then [] else [Unescape(ps[0].body)] + Strings(ps[1..])
  }

  lemma {:induction false} SpacesAtIs(t: Text, at: nat, n: nat)
    requires at + n <= |t| && AllSpace(t[at..at + n]) && (at + n < |t| ==> !IsSpace(t[at + n]))
    ensures SpacesAt(t, at) == n
    decreases n
  {
    if n > 0 {
      assert t[at] == t[at..at + n][0];
      assert t[at + 1..at + n] == t[at..at + n][1..];
      SpacesAtIs(t, at + 1, n - 1);
    }
  }

  lemma PartStartsBare(ps: seq<Part>)
    requires ps != [] && AreParts(ps)
    ensures |PartsText(ps)| > 0 && !IsSpace(PartsText(ps)[0]) && PartsText(ps)[0] != 44
  {
    hide IsBody, AllSpace;
  }

  /** The separator after a part's closing quote. */
  lemma SeparatorIs(t: Text, at: nat, p: Part, rest: Text)
    requires at <= |t| && t[at..] == p.before + (if p.comma then [44] + p.after else []) + rest
    requires AllSpace(p.before) && AllSpace(p.after) && (!p.comma ==> p.after == [] && rest == [])
    requires rest != [] ==> !IsSpace(rest[0])
    ensures var r := SeparatorAt(t, at);
            r == (|p.before| + (if p.comma then 1 + |p.after| else 0), p.comma) && t[at + r.0..] == rest
  {
    hide AllSpace, IsSpace, SpacesAt;
    var n, tail := |p.before|, t[at..];
    assert t[at..at + n] == tail[..n] == p.before;
    if p.comma {
      CommaAfter(t, at, p.before, p.after, rest);
    } else {
      assert tail == p.before && at + n == |t|;
      SpacesAtIs(t, at, n);
    }
  }

  lemma CommaAfter(t: Text, at: nat, before: Text, after: Text, rest: Text)
    requires at <= |t| && t[at..] == before + ([44] + after) + rest && AllSpace(before) && AllSpace(after)
    requires rest != [] ==> !IsSpace(rest[0])
    ensures SeparatorAt(t, at) == (|before| + 1 + |after|, true) && t[at + |before| + 1 + |after|..] == rest
  {
    hide AllSpace, IsSpace, SpacesAt;
    var n, m, tail := |before|, |after|, t[at..];
    assert t[at..at + n] == tail[..n] == before;
    assert t[at + n] == tail[n] == 44;
    CommaIsBare();
    SpacesAtIs(t, at, n);
    assert t[at + n + 1..at + n + 1 + m] == tail[n + 1..n + 1 + m] == after;
    assert t[at + n + 1 + m..] == tail[n + 1 + m..] == rest;
    assert at + n + 1 + m < |t| ==> t[at + n + 1 + m] == rest[0];
    SpacesAtIs(t, at + n + 1, m);
  }

  lemma CommaIsBare()
    ensures !IsSpace(44)
  {
  }

  /** One part is one turn of the parser. */
  lemma OnePart(t: Text, at: nat, p: Part, rest: Text, found: seq<Text>)
    requires at <= |t| && t[at..] == PartText(p) + rest && IsPart(p, rest == [])
    requires rest != [] ==> !IsSpace(rest[0])
    ensures var next := at + |PartText(p)|;
            next <= |t| && t[next..] == rest
            && ItemsFrom(t, at, found) == ItemsFrom(t, next, found + [Unescape(p.body)])
  {
    hide AllSpace, IsSpace, IsBody, Unescape, SpacesAt, QuotedAt, SeparatorAt;
    var n, tail := |p.body|, t[at..];
    var sep := p.before + (if p.comma then [44] + p.after else []);
    assert tail == [p.quote] + p.body + [p.quote] + (sep + rest);
    assert t[at] == tail[0] && t[at + 1 + n] == tail[1 + n] == p.quote;
    assert t[at + 1..at + 1 + n] == tail[1..1 + n] == p.body;
    QuotedIsMatch(t, at, n);
    assert t[at + n + 2..] == tail[n + 2..] == sep + rest;
    SeparatorIs(t, at + n + 2, p, rest);
    assert |PartText(p)| == n + 2 + |sep|;
  }

  lemma {:induction false} ItemsOfParts(t: Text, at: nat, ps: seq<Part>, found: seq<Text>)
    requires at <= |t| && t[at..] == PartsText(ps) && AreParts(ps)
    ensures ItemsFrom(t, at, found) == Some(found + Strings(ps))
    decreases |ps|
  {
    hide *;
    if ps == [] {
      NoParts(t, at, ps, found);
    } else {
      PartsMore(ps);
      var p, rest := ps[0], PartsText(ps[1..]);
      OnePart(t, at, p, rest, found);
      ItemsOfParts(t, at + |PartText(p)|, ps[1..], found + [Unescape(p.body)]);
      assert found + [Unescape(p.body)] + Strings(ps[1..]) == found + ([Unescape(p.body)] + Strings(ps[1..]));
    }
  }

  lemma NoParts(t: Text, at: nat, ps: seq<Part>, found: seq<Text>)
    requires at <= |t| && ps == [] && t[at..] == PartsText(ps)
    ensures ItemsFrom(t, at, found) == Some(found + Strings(ps))
  {
    assert |t[at..]| == |t| - at == 0;
    assert found + [] == found;
  }

  lemma PartsMore(ps: seq<Part>)
    requires ps != [] && AreParts(ps)
    ensures AreParts(ps[1..]) && PartsText(ps) == PartText(ps[0]) + PartsText(ps[1..])
    ensures Strings(ps) == [Unescape(ps[0].body)] + Strings(ps[1..])
    ensures IsPart(ps[0], PartsText(ps[1..]) == [])
    ensures PartsText(ps[1..]) != [] ==> !IsSpace(PartsText(ps[1..])[0])
  {
    hide Unescape, IsBody, AllSpace, IsSpace;
    if |ps| > 1 {
      PartStartsBare(ps[1..]);
    }
  }

  /** And whatever is accepted is made of parts. */
  lemma {:induction false} PartsOfItems(t: Text, at: nat, found: seq<Text>) returns (ps: seq<Part>)
    requires at <= |t| && ItemsFrom(t, at, found).Some?
    ensures t[at..] == PartsText(ps) && AreParts(ps) && ItemsFrom(t, at, found) == Some(found + Strings(ps))
    decreases |t| - at
  {
    hide *;
    if at == |t| {
      ps := [];
      NothingAccepted(t, found);
    } else {
      var p, next := PartAt(t, at, found);
      var rest := PartsOfItems(t, next, found + [Unescape(p.body)]);
      ps := [p] + rest;
      PartsFirst(p, rest, next == |t|);
      NoTextLeft(rest);
      SliceSplits(t, at, next, |t|);
      assert t[at..|t|] == t[at..] && t[next..|t|] == t[next..];
      assert found + [Unescape(p.body)] + Strings(rest) == found + ([Unescape(p.body)] + Strings(rest));
    }
  }

  lemma NothingAccepted(t: Text, found: seq<Text>)
    ensures t[|t|..] == PartsText([]) && AreParts([]) && ItemsFrom(t, |t|, found) == Some(found + Strings([]))
  {
    assert found + [] == found;
  }

  lemma NoTextLeft(ps: seq<Part>)
    requires AreParts(ps)
    ensures PartsText(ps) == [] <==> ps == []
  {
    if ps != [] {
      PartStartsBare(ps);
    }
  }

  lemma PartsFirst(p: Part, rest: seq<Part>, last: bool)
    requires IsPart(p, last) && AreParts(rest) && (last <==> PartsText(rest) == [])
    ensures var ps := [p] + rest;
            && AreParts(ps) && PartsText(ps) == PartText(p) + PartsText(rest)
            && Strings(ps) == [Unescape(p.body)] + Strings(rest)
  {
    var ps := [p] + rest;
    assert ps[1..] == rest && ps[0] == p;
    NoTextLeft(rest);
    hide Unescape, IsBody, AllSpace;
  }

  lemma ItemsStep(t: Text, at: nat, found: seq<Text>)
    requires at < |t| && ItemsFrom(t, at, found).Some?
    ensures QuotedAt(t, at).Some?
    ensures var n := QuotedAt(t, at).value;
            && (t[at] == QUOTE || t[at] == DOUBLE_QUOTE) && at + n + 2 <= |t|
            && var r := SeparatorAt(t, at + n + 2);
               (r.1 || at + n + 2 + r.0 == |t|)
               && ItemsFrom(t, at, found)
                  == ItemsFrom(t, at + n + 2 + r.0, found + [Unescape(t[at + 1..at + 1 + n])])
  {
    hide BodyLength, SeparatorAt, Unescape;
  }

  lemma SliceAround(t: Text, from: nat, at: nat, to: nat)
    requires from <= at < to <= |t|
    ensures t[from..to] == t[from..at] + ([t[at]] + t[at + 1..to])
  {
  }

  lemma SliceSplits(t: Text, from: nat, at: nat, to: nat)
    requires from <= at <= to <= |t|
    ensures t[from..to] == t[from..at] + t[at..to]
  {
  }

  /** A separator found is white space, perhaps with a comma and more of it. */
  lemma SeparatorAtIs(t: Text, at: nat) returns (before: Text, after: Text)
    requires at <= |t|
    ensures AllSpace(before) && AllSpace(after)
    ensures var r := SeparatorAt(t, at);
            (!r.1 ==> after == []) && t[at..at + r.0] == before + (if r.1 then [44] + after else [])
  {
    var n := SpacesAt(t, at);
    SpacesAtAre(t, at);
    NoSpaces();
    hide AllSpace, IsSpace, SpacesAt;
    before, after := t[at..at + n], [];
    if SeparatorAt(t, at).1 {
      var to := at + n + 1 + SpacesAt(t, at + n + 1);
      SpacesAtAre(t, at + n + 1);
      after := t[at + n + 1..to];
      SliceAround(t, at, at + n, to);
    } else {
      assert before + [] == before;
    }
  }

  lemma PartTextIs(p: Part)
    ensures PartText(p) == [p.quote] + (p.body + [p.quote]) + (p.before + (if p.comma then [44] + p.after else []))
  {
  }

  lemma QuotedSlice(t: Text, at: nat, n: nat)
    requires at + n + 2 <= |t| && t[at + 1 + n] == t[at]
    ensures t[at..at + n + 2] == [t[at]] + (t[at + 1..at + 1 + n] + [t[at]])
  {
  }

  lemma PartMade(t: Text, at: nat, n: nat, next: nat, p: Part)
    requires at + n + 2 <= next <= |t| && t[at + 1 + n] == t[at]
    requires p.quote == t[at] && p.body == t[at + 1..at + 1 + n]
    requires t[at + n + 2..next] == p.before + (if p.comma then [44] + p.after else [])
    ensures t[at..next] == PartText(p)
  {
    hide *;
    QuotedSlice(t, at, n);
    SliceSplits(t, at, at + n + 2, next);
    PartTextIs(p);
  }

  lemma PartAt(t: Text, at: nat, found: seq<Text>) returns (p: Part, next: nat)
    requires at < |t| && ItemsFrom(t, at, found).Some?
    ensures at < next <= |t| && t[at..next] == PartText(p) && IsPart(p, next == |t|)
    ensures ItemsFrom(t, at, found) == ItemsFrom(t, next, found + [Unescape(p.body)])
  {
    hide *;
    ItemsStep(t, at, found);
    QuotesAre();
    var n := QuotedAt(t, at).value;
    QuotedIsMatch(t, at, n);
    var end := at + n + 2;
    var before, after := SeparatorAtIs(t, end);
    var sep := SeparatorAt(t, end);
    next := end + sep.0;
    p := Part(t[at], t[at + 1..at + 1 + n], before, sep.1, after);
    PartMade(t, at, n, next, p);
    PartIs(p, next == |t|);
  }

  lemma PartIs(p: Part, last: bool)
    requires (p.quote == 39 || p.quote == 34) && IsBody(p.body, p.quote) && AllSpace(p.before) && AllSpace(p.after)
    requires !p.comma ==> last && p.after == []
    ensures IsPart(p, last)
  {
    hide IsBody, AllSpace;
  }

  lemma QuotesAre()
    ensures QUOTE == 39 && DOUBLE_QUOTE == 34
  {
  }

  lemma NoSpaces()
    ensures AllSpace([])
  {
  }

  /**
   * The parser accepts exactly the bracketed lists of quoted strings, in either quote, with a comma and any
   * white space between them and perhaps after the last; and it answers what their bodies unescape to.
   */
  lemma ParsedIff(output: Text, list: seq<Text>)
    ensures Parsed(output) == Some(list) <==>
            exists ps :: AreParts(ps) && Strings(ps) == list && Inner(WithoutType(Trim(output))) == Some(PartsText(ps))
  {
    hide ItemsFrom, Inner, WithoutType, Trim, AreParts, Strings, PartsText;
    var inner := Inner(WithoutType(Trim(output)));
    if Parsed(output) == Some(list) {
      var ps := PartsOfItems(inner.value, 0, []);
      assert inner.value[0..] == inner.value && [] + Strings(ps) == Strings(ps);
    }
    if exists ps :: AreParts(ps) && Strings(ps) == list && inner == Some(PartsText(ps)) {
      var ps :| AreParts(ps) && Strings(ps) == list && inner == Some(PartsText(ps));
      assert inner.value[0..] == inner.value;
      ItemsOfParts(inner.value, 0, ps, []);
      assert [] + Strings(ps) == Strings(ps);
    }
  }

  /**
   * What stands about the list: white space, perhaps `@as` and more white space, and brackets with white space
   * inside.
   */
  lemma InnerIs(a: Text, typed: bool, gap: Text, b: Text, list: Text, c: Text, d: Text)
    requires AllSpace(a) && AllSpace(gap) && AllSpace(b) && AllSpace(c) && AllSpace(d) && (typed ==> gap != [])
    requires list != [] ==> !IsSpace(list[0]) && !IsSpace(list[|list| - 1])
    ensures Inner(WithoutType(Trim(a + (if typed then [64, 97, 115] + gap else []) + [91] + b + list + c + [93] + d)))
        == Some(list)
  {
    var core := [91] + b + list + c + [93];
    var front := if typed then [64, 97, 115] + gap else [];
    var middle := front + core;
    BareUnits();
    assert a + front + [91] + b + list + c + [93] + d == a + middle + d;
    hide *;
    TrimmedBoth(a, middle, d);
    if typed {
      assert middle == [64, 97, 115] + gap + core;
      TypeDropped(gap, core);
    } else {
      assert middle == core;
      TypeAbsent(core);
    }
    BracketsDropped(b, list, c);
  }

  lemma BareUnits()
    ensures !IsSpace(64) && !IsSpace(91) && !IsSpace(93)
  {
  }

  lemma TrimmedBoth(a: Text, middle: Text, d: Text)
    requires AllSpace(a) && AllSpace(d)
    requires middle != [] ==> !IsSpace(middle[0]) && !IsSpace(middle[|middle| - 1])
    ensures Trim(a + middle + d) == middle
  {
    hide IsSpace;
    var t := a + middle + d;
    if middle == [] {
      assert AllSpace(t);
      assert t[0..|t|] == t;
      SpacesAtIs(t, 0, |t|);
      assert t[|t|..] == [];
    } else {
      assert t[0..0 + |a|] == a && t[|a|] == middle[0];
      SpacesAtIs(t, 0, |a|);
      assert t[|a|..] == middle + d;
      TrimEndDrops(middle, d);
    }
  }

  lemma {:induction false} TrimEndDrops(middle: Text, d: Text)
    requires AllSpace(d) && (middle != [] ==> !IsSpace(middle[|middle| - 1]))
    ensures TrimEnd(middle + d) == middle
  {
    hide IsSpace;
    if d == [] {
      assert middle + d == middle;
    } else {
      var t := middle + d;
      assert t[..|t| - 1] == middle + d[..|d| - 1];
      TrimEndDrops(middle, d[..|d| - 1]);
    }
  }

  lemma TypeDropped(gap: Text, core: Text)
    requires AllSpace(gap) && gap != [] && core != [] && !IsSpace(core[0])
    ensures WithoutType([64, 97, 115] + gap + core) == core
  {
    hide IsSpace, SpacesAt, AllSpace;
    var t := [64, 97, 115] + gap + core;
    assert t[3..3 + |gap|] == gap && t[3 + |gap|] == core[0];
    SpacesAtIs(t, 3, |gap|);
    assert t[3 + |gap|..] == core;
    assert t[..3] == EMPTY_TYPE;
  }

  lemma TypeAbsent(core: Text)
    requires core != [] && core[0] == 91
    ensures WithoutType(core) == core
  {
    assert EMPTY_TYPE[0] == 64;
  }

  lemma BracketsDropped(b: Text, list: Text, c: Text)
    requires AllSpace(b) && AllSpace(c)
    requires list != [] ==> !IsSpace(list[0]) && !IsSpace(list[|list| - 1])
    ensures Inner([91] + b + list + c + [93]) == Some(list)
    ensures ([91] + b + list + c + [93])[0] == 91
  {
    var core := [91] + b + list + c + [93];
    assert core[1..|core| - 1] == b + list + c;
    hide Trim, AllSpace, IsSpace;
    TrimmedBoth(b, list, c);
  }
}
