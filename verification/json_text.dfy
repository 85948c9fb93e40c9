/**
 JSON texts as json.dumps writes them (ensure_ascii=False, compact separators) and json.loads
 reads them; the grammar is that of RFC 8259, strings by its section 7.

 How a float is written and read is a parameter: only that reading gives back what was
 written matters here.
 */
module JsonText {
  import opened Common

  datatype Json =
    | Nothing
    | Truth(b: bool)
    | Whole(n: int)
    | Float(x: real)
    | NonFinite
    | Text(s: string)
    | List(items: seq<Json>)
    | Object(members: map<string, Json>)

  /** `read` gives None where the value is out of range, and so does `ofInt`. */
  datatype Floats = Floats(
    show: real -> string,
    read: string -> Option<real>,
    ofInt: int -> Option<real>,
    double: real -> bool)

  /** repr writes a double as a float token that reads back as the same double. */
  ghost predicate FloatsOk(f: Floats) {
    && (forall x :: f.double(x) ==> FloatToken(f.show(x)) && f.read(f.show(x)) == Some(x))
    && (forall t :: f.read(t).Some? ==> f.double(f.read(t).value))
    && (forall n :: f.ofInt(n).Some? ==> f.double(f.ofInt(n).value))
  }

  // ------------------------------------------------------------------- numbers

  predicate IsDigit(c: char) {
    '0' <= c <= '9'
  }

  function DigitChar(d: nat): (c: char)
    requires d < 10
    ensures IsDigit(c) && DigitValue(c) == d
  {
    ('0' as int + d) as char
  }

  function DigitValue(c: char): nat
    requires IsDigit(c)
  {
    c as int - '0' as int
  }

  function DigitsEnd(s: string, i: nat): (j: nat)
    requires i <= |s|
    ensures i <= j <= |s| && forall k :: i <= k < j ==> IsDigit(s[k])
    ensures j < |s| ==> !IsDigit(s[j])
    decreases |s| - i
  {
    if i < |s| && IsDigit(s[i]) then DigitsEnd(s, i + 1) else i
  }

  /** The end of an integer without sign, or its start if there is none. */
  function IntEnd(s: string, i: nat): (j: nat)
    requires i <= |s|
    ensures i <= j <= |s| && forall k :: i <= k < j ==> IsDigit(s[k])
  {
    if i == |s| || !IsDigit(s[i]) then i else if s[i] == '0' then i + 1 else DigitsEnd(s, i)
  }

  function FractionEnd(s: string, i: nat): (j: nat)
    requires i <= |s|
    ensures i <= j <= |s| && forall k :: i <= k < j ==> s[k] >= ' '
  {
    if i + 1 < |s| && s[i] == '.' && IsDigit(s[i + 1]) then DigitsEnd(s, i + 1) else i
  }

  function ExponentEnd(s: string, i: nat): (j: nat)
    requires i <= |s|
    ensures i <= j <= |s| && forall k :: i <= k < j ==> s[k] >= ' '
  {
    if i < |s| && (s[i] == 'e' || s[i] == 'E') then
      var k := if i + 1 < |s| && (s[i + 1] == '+' || s[i + 1] == '-') then i + 2 else i + 1;
      if k < |s| && IsDigit(s[k]) then DigitsEnd(s, k) else i
    else i
  }

  function SignEnd(s: string, i: nat): (j: nat)
    requires i <= |s|
    ensures i <= j <= |s| && forall k :: i <= k < j ==> s[k] >= ' '
  {
    if i < |s| && s[i] == '-' then i + 1 else i
  }

  function NumberEnd(s: string, i: nat): (j: nat)
    requires i <= |s|
    ensures i <= j <= |s| && forall k :: i <= k < j ==> s[k] >= ' '
  {
    ExponentEnd(s, FractionEnd(s, IntEnd(s, SignEnd(s, i))))
  }

  predicate FloatToken(s: string) {
    var i := SignEnd(s, 0);
    0 < |s| && (s[0] == '-' || IsDigit(s[0])) && i < IntEnd(s, i) < NumberEnd(s, 0) == |s|
  }

  function DecimalValue(s: string): nat
    requires forall k :: 0 <= k < |s| ==> IsDigit(s[k])
  {
    if s == [] then 0 else 10 * DecimalValue(s[..|s| - 1]) + DigitValue(s[|s| - 1])
  }

  function Decimal(n: nat): string {
    if n < 10 then [DigitChar(n)] else Decimal(n / 10) + [DigitChar(n % 10)]
  }

  lemma {:induction false} DecimalReads(n: nat)
    ensures Decimal(n) != [] && (forall k :: 0 <= k < |Decimal(n)| ==> IsDigit(Decimal(n)[k]))
    ensures DecimalValue(Decimal(n)) == n
    ensures n > 0 ==> Decimal(n)[0] != '0'
  {
    var s := Decimal(n);
    if n < 10 {
      assert s[..0] == [];
    } else {
      DecimalReads(n / 10);
      assert s[..|s| - 1] == Decimal(n / 10);
    }
  }

  // ------------------------------------------------------------------- strings

  function HexDigit(d: nat): (c: char)
    requires d < 16
  {
    if d < 10 then DigitChar(d) else ('a' as int + d - 10) as char
  }

  function HexValue(c: char): (r: Option<nat>)
    ensures r.Some? ==> r.value < 16
  {
    if IsDigit(c) then Some(DigitValue(c))
    else if 'a' <= c <= 'f' then Some(c as int - 'a' as int + 10)
    else if 'A' <= c <= 'F' then Some(c as int - 'A' as int + 10)
    else None
  }

  function Hex4(s: string, i: nat): (r: Option<nat>)
    ensures r.Some? ==> i + 4 <= |s| && r.value < 0x10000
  {
    if i + 4 > |s| then None
    else
      var a, b, c, d := HexValue(s[i]), HexValue(s[i + 1]), HexValue(s[i + 2]), HexValue(s[i + 3]);
      if a.None? || b.None? || c.None? || d.None? then None
      else Some(4096 * a.value + 256 * b.value + 16 * c.value + d.value)
  }

  const BACKSPACE := 8 as char
  const FORM_FEED := 12 as char

  function Escape(c: char): string {
    if c == '"' then "\\\""
    else if c == '\\' then "\\\\"
    else if c == '\n' then "\\n"
    else if c == '\r' then "\\r"
    else if c == '\t' then "\\t"
    else if c == BACKSPACE then "\\b"
    else if c == FORM_FEED then "\\f"
    else if c < ' ' then "\\u00" + [HexDigit(c as int / 16), HexDigit(c as int % 16)]
    else [c]
  }

  function Escaped(t: string): string {
    if t == [] then [] else Escape(t[0]) + Escaped(t[1..])
  }

  function Quote(t: string): string {
    ['"'] + Escaped(t) + ['"']
  }

  /** What the letter after a backslash stands for, other than u. */
  function Named(c: char): Option<char> {
    if c == '"' || c == '\\' || c == '/' then Some(c)
    else if c == 'n' then Some('\n')
    else if c == 'r' then Some('\r')
    else if c == 't' then Some('\t')
    else if c == 'b' then Some(BACKSPACE)
    else if c == 'f' then Some(FORM_FEED)
    else None
  }

  /** The character of an escape whose letter is at i, and the end of the escape. */
  function Unescape(s: string, i: nat): (r: Option<(char, nat)>)
    ensures r.Some? ==> i < r.value.1 <= |s|
  {
    if i >= |s| then None
    else if s[i] == 'u' then
      match Hex4(s, i + 1)
      case None => None
      case Some(u) =>
        if 0xD800 <= u < 0xDC00 then LowSurrogate(s, i + 5, u)
        else if 0xDC00 <= u < 0xE000 then None
        else Some((u as char, i + 5))
    else
      match Named(s[i])
      case None => None
      case Some(c) => Some((c, i + 1))
  }

  /** The second half of a surrogate pair. */
  function LowSurrogate(s: string, i: nat, high: nat): (r: Option<(char, nat)>)
    requires 0xD800 <= high < 0xDC00
    ensures r.Some? ==> i < r.value.1 <= |s|
  {
    if i + 1 < |s| && s[i] == '\\' && s[i + 1] == 'u' then
      match Hex4(s, i + 2)
      case None => None
      case Some(low) =>
        if 0xDC00 <= low < 0xE000 then Some(((0x10000 + 0x400 * (high - 0xD800) + low - 0xDC00) as char, i + 6))
        else None
    else None
  }

  /** A string from after its opening quote, and the position after its closing one. */
  function StringBody(s: string, i: nat): (r: Option<(string, nat)>)
    ensures r.Some? ==> i < r.value.1 <= |s|
    decreases |s| - i
  {
    if i >= |s| then None
    else if s[i] == '"' then Some(([], i + 1))
    else if s[i] == '\\' then
      match Unescape(s, i + 1)
      case None => None
      case Some((c, j)) => Prepend(c, StringBody(s, j))
    else if s[i] < ' ' then None
    else Prepend(s[i], StringBody(s, i + 1))
  }

  function Prepend(c: char, rest: Option<(string, nat)>): Option<(string, nat)> {
    match rest
    case None => None
    case Some((t, j)) => Some(([c] + t, j))
  }

  /** One escaped character reads back as itself. */
  lemma EscapeReads(s: string, i: nat, c: char)
    requires At(s, i, Escape(c))
    ensures 0 < |Escape(c)| && i < |s| && s[i] != '"'
    ensures s[i] == '\\' ==> Unescape(s, i + 1) == Some((c, i + |Escape(c)|))
    ensures s[i] != '\\' ==> s[i] >= ' ' && s[i] == c && |Escape(c)| == 1
  {
    var e := Escape(c);
    AtIndex(s, i, e, 0);
    if |e| > 1 {
      AtIndex(s, i, e, 1);
    }
    if |e| > 2 {
      AtIndex(s, i, e, 2);
      AtIndex(s, i, e, 3);
      AtIndex(s, i, e, 4);
      AtIndex(s, i, e, 5);
      assert Hex4(s, i + 2) == Some(c as int);
    }
  }

  lemma OneCharacter(s: string, i: nat, c: char)
    requires At(s, i, Escape(c))
    ensures StringBody(s, i) == Prepend(c, StringBody(s, i + |Escape(c)|))
  {
    EscapeReads(s, i, c);
  }

  /** A string reads back as it was. */
  lemma {:induction false} EscapedReads(s: string, i: nat, t: string, end: nat)
    requires At(s, i, Escaped(t)) && end == i + |Escaped(t)| && end < |s| && s[end] == '"'
    ensures StringBody(s, i) == Some((t, end + 1))
    decreases |t|
  {
    hide Escape, Unescape, At;
    if t != [] {
      var first, rest := Escape(t[0]), Escaped(t[1..]);
      var j := i + |first|;
      assert At(s, i, first) && At(s, j, rest) by {
        AtSplit(s, i, first, rest);
      }
      assert StringBody(s, j) == Some((t[1..], end + 1)) by {
        EscapedReads(s, j, t[1..], end);
      }
      assert StringBody(s, i) == Prepend(t[0], StringBody(s, j)) by {
        OneCharacter(s, i, t[0]);
      }
      assert [t[0]] + t[1..] == t;
    }
  }

  // -------------------------------------------------------------------- values

  predicate IsSpace(c: char) {
    c == ' ' || c == '\t' || c == '\n' || c == '\r'
  }

  function SkipSpace(s: string, i: nat): (j: nat)
    requires i <= |s|
    ensures i <= j <= |s|
    decreases |s| - i
  {
    if i < |s| && IsSpace(s[i]) then SkipSpace(s, i + 1) else i
  }

  function Number(f: Floats, s: string, i: nat): (r: Option<(Json, nat)>)
    requires i < |s| && (s[i] == '-' || IsDigit(s[i]))
    ensures r.Some? ==> i < r.value.1 <= |s|
  {
    var first := SignEnd(s, i);
    var whole, end := IntEnd(s, first), NumberEnd(s, i);
    if whole == first then
      if At(s, i, "-Infinity") then Some((NonFinite, i + 9)) else None
    else if end == whole then
      var n: int := DecimalValue(s[first..whole]);
      Some((Whole(if first == i then n else -n), end))
    else
      match f.read(s[i..end])
      case Some(x) => Some((Float(x), end))
      case None => Some((NonFinite, end))
  }

  function Word(s: string, i: nat, word: string, value: Json): (r: Option<(Json, nat)>)
    requires word != []
    ensures r.Some? ==> i < r.value.1 <= |s|
  {
    if At(s, i, word) then Some((value, i + |word|)) else None
  }

  /** The value at i, and the position after it. */
  function Value(f: Floats, s: string, i: nat): (r: Option<(Json, nat)>)
    ensures r.Some? ==> i < r.value.1 <= |s|
    decreases |s| - i, 2
  {
    if i >= |s| then None
    else if s[i] == '"' then
      match StringBody(s, i + 1)
      case None => None
      case Some((t, j)) => Some((Text(t), j))
    else if s[i] == '{' then
      var k := SkipSpace(s, i + 1);
      if k < |s| && s[k] == '}' then Some((Object(map[]), k + 1)) else Members(f, s, k, map[])
    else if s[i] == '[' then
      var k := SkipSpace(s, i + 1);
      if k < |s| && s[k] == ']' then Some((List([]), k + 1)) else Elements(f, s, k, [])
    else if s[i] == '-' || IsDigit(s[i]) then Number(f, s, i)
    else if s[i] == 'n' then Word(s, i, "null", Nothing)
    else if s[i] == 't' then Word(s, i, "true", Truth(true))
    else if s[i] == 'f' then Word(s, i, "false", Truth(false))
    else if s[i] == 'N' then Word(s, i, "NaN", NonFinite)
    else Word(s, i, "Infinity", NonFinite)
  }

  /** The members of an object from the key at i on; of equal keys the last one counts. */
  function Members(f: Floats, s: string, i: nat, before: map<string, Json>): (r: Option<(Json, nat)>)
    ensures r.Some? ==> i < r.value.1 <= |s|
    decreases |s| - i, 1
  {
    if i >= |s| || s[i] != '"' then None
    else
      match StringBody(s, i + 1)
      case None => None
      case Some((key, j)) =>
        var colon := SkipSpace(s, j);
        if colon >= |s| || s[colon] != ':' then None
        else
          match Value(f, s, SkipSpace(s, colon + 1))
          case None => None
          case Some((v, k)) =>
            var next := SkipSpace(s, k);
            if next >= |s| then None
            else if s[next] == '}' then Some((Object(before[key := v]), next + 1))
            else if s[next] == ',' then Members(f, s, SkipSpace(s, next + 1), before[key := v])
            else None
  }

  function Elements(f: Floats, s: string, i: nat, before: seq<Json>): (r: Option<(Json, nat)>)
    ensures r.Some? ==> i < r.value.1 <= |s|
    decreases |s| - i, 3
  {
    match Value(f, s, i)
    case None => None
    case Some((v, k)) =>
      var next := SkipSpace(s, k);
      if next >= |s| then None
      else if s[next] == ']' then Some((List(before + [v]), next + 1))
      else if s[next] == ',' then Elements(f, s, SkipSpace(s, next + 1), before + [v])
      else None
  }

  function Loads(f: Floats, s: string): Option<Json> {
    match Value(f, s, SkipSpace(s, 0))
    case None => None
    case Some((v, end)) => if SkipSpace(s, end) == |s| then Some(v) else None
  }

  /** The members of an object of strings, as json.dumps writes them without spaces. */
  function MembersText(members: seq<(string, string)>): string
    requires members != []
  {
    var first := Quote(members[0].0) + [':'] + Quote(members[0].1);
    if |members| == 1 then first else first + [','] + MembersText(members[1..])
  }

  function ObjectText(members: seq<(string, string)>): string
    requires members != []
  {
    ['{'] + MembersText(members) + ['}']
  }

  function Updated(before: map<string, Json>, members: seq<(string, string)>): map<string, Json>
    decreases |members|
  {
    if members == [] then before else Updated(before[members[0].0 := Text(members[0].1)], members[1..])
  }

  // --------------------------------------------------------------- round trips

  lemma QuoteParts(s: string, i: nat, t: string, end: nat)
    requires At(s, i, Quote(t)) && end == i + 1 + |Escaped(t)|
    ensures end + 1 == i + |Quote(t)|
    ensures At(s, i, ['"']) && At(s, i + 1, Escaped(t)) && At(s, end, ['"'])
  {
    AtSplit(s, i, ['"'] + Escaped(t), ['"']);
    AtSplit(s, i, ['"'], Escaped(t));
  }

  lemma QuoteAt(s: string, i: nat, t: string)
    requires At(s, i, Quote(t))
    ensures i < |s| && s[i] == '"' && StringBody(s, i + 1) == Some((t, i + |Quote(t)|))
  {
    hide *;
    var end := i + 1 + |Escaped(t)|;
    QuoteParts(s, i, t, end);
    AtOne(s, i, '"');
    AtOne(s, end, '"');
    EscapedReads(s, i + 1, t, end);
  }

  lemma QuoteValue(f: Floats, s: string, i: nat, t: string)
    requires At(s, i, Quote(t))
    ensures Value(f, s, i) == Some((Text(t), i + |Quote(t)|))
  {
    QuoteAt(s, i, t);
  }

  lemma LoadsQuote(f: Floats, t: string)
    ensures Loads(f, Quote(t)) == Some(Text(t))
  {
    var s := Quote(t);
    AtWhole(s);
    QuoteAt(s, 0, t);
  }

  lemma LoadsDecimal(f: Floats, n: nat)
    ensures Loads(f, Decimal(n)) == Some(Whole(n))
  {
    var s := Decimal(n);
    DecimalReads(n);
    AllDigits(s, 0);
    assert IsDigit(s[0]) && SkipSpace(s, 0) == 0;
    assert n < 10 ==> s == [DigitChar(n)];
    assert s[0..|s|] == s;
  }

  lemma {:induction false} AllDigits(s: string, i: nat)
    requires i <= |s| && forall k :: 0 <= k < |s| ==> IsDigit(s[k])
    ensures DigitsEnd(s, i) == |s|
    decreases |s| - i
  {
    if i < |s| {
      AllDigits(s, i + 1);
    }
  }

  lemma LoadsNull(f: Floats)
    ensures Loads(f, "null") == Some(Nothing)
  {
    assert "null"[0..4] == "null";
  }

  lemma LoadsFloat(f: Floats, x: real)
    requires FloatsOk(f) && f.double(x)
    ensures Loads(f, f.show(x)) == Some(Float(x))
  {
    var s := f.show(x);
    assert s[0..|s|] == s;
    assert SkipSpace(s, 0) == 0;
  }

  lemma NoSpace(s: string, i: nat)
    requires i < |s| && !IsSpace(s[i])
    ensures SkipSpace(s, i) == i
  {
  }

  /** A member between its opening quote and the character after it. */
  lemma MemberParts(s: string, i: nat, key: string, value: string, colon: nat)
    requires At(s, i, Quote(key) + [':'] + Quote(value)) && colon == i + |Quote(key)|
    ensures At(s, i, Quote(key)) && At(s, colon + 1, Quote(value))
    ensures colon < |s| && s[colon] == ':'
  {
    AtSplit(s, i, Quote(key) + [':'], Quote(value));
    AtSplit(s, i, Quote(key), [':']);
    AtOne(s, colon, ':');
  }

  /** What Members does with a member that it can read. */
  lemma MembersStep(f: Floats, s: string, i: nat, key: string, colon: nat, v: Json, next: nat,
                    before: map<string, Json>)
    requires i < |s| && s[i] == '"' && StringBody(s, i + 1) == Some((key, colon))
    requires colon < |s| && s[colon] == ':' && SkipSpace(s, colon) == colon
    requires SkipSpace(s, colon + 1) == colon + 1 && Value(f, s, colon + 1) == Some((v, next))
    requires next < |s| && SkipSpace(s, next) == next
    ensures s[next] == '}' ==> Members(f, s, i, before) == Some((Object(before[key := v]), next + 1))
    ensures s[next] == ',' ==>
      Members(f, s, i, before) == Members(f, s, SkipSpace(s, next + 1), before[key := v])
  {
    hide Value, StringBody, SkipSpace;
  }

  /** One member, up to the comma or brace after it. */
  lemma MemberReads(f: Floats, s: string, i: nat, key: string, value: string, next: nat, before: map<string, Json>)
    requires At(s, i, Quote(key) + [':'] + Quote(value))
    requires next == i + |Quote(key)| + 1 + |Quote(value)| && next < |s|
    ensures s[next] == '}' ==>
      Members(f, s, i, before) == Some((Object(before[key := Text(value)]), next + 1))
    ensures s[next] == ',' ==>
      Members(f, s, i, before) == Members(f, s, SkipSpace(s, next + 1), before[key := Text(value)])
  {
    hide At, Quote, StringBody, Value, Members;
    var colon := i + |Quote(key)|;
    MemberParts(s, i, key, value, colon);
    QuoteAt(s, i, key);
    QuoteAt(s, colon + 1, value);
    QuoteValue(f, s, colon + 1, value);
    NoSpace(s, colon);
    NoSpace(s, colon + 1);
    if s[next] == '}' || s[next] == ',' {
      NoSpace(s, next);
      MembersStep(f, s, i, key, colon, Text(value), next, before);
    }
  }

  lemma MembersParts(s: string, i: nat, members: seq<(string, string)>, next: nat)
    requires members != [] && At(s, i, MembersText(members) + ['}'])
    requires next == i + |Quote(members[0].0)| + 1 + |Quote(members[0].1)|
    ensures At(s, i, Quote(members[0].0) + [':'] + Quote(members[0].1)) && next < |s|
    ensures |members| == 1 ==> s[next] == '}' && next == i + |MembersText(members)|
    ensures |members| > 1 ==>
      s[next] == ',' && At(s, next + 1, MembersText(members[1..]) + ['}'])
      && i + |MembersText(members)| == next + 1 + |MembersText(members[1..])|
  {
    hide At, Quote;
    var first, text := Quote(members[0].0) + [':'] + Quote(members[0].1), MembersText(members);
    if |members| == 1 {
      AtSplit(s, i, first, ['}']);
      AtOne(s, next, '}');
    } else {
      var rest := MembersText(members[1..]);
      assert text + ['}'] == first + ([','] + (rest + ['}']));
      AtSplit(s, i, first, [','] + (rest + ['}']));
      AtSplit(s, next, [','], rest + ['}']);
      AtOne(s, next, ',');
    }
  }

  lemma {:induction false} MembersRead(f: Floats, s: string, i: nat, members: seq<(string, string)>,
                                       before: map<string, Json>)
    requires members != [] && At(s, i, MembersText(members) + ['}'])
    ensures Members(f, s, i, before)
         == Some((Object(Updated(before, members)), i + |MembersText(members)| + 1))
    decreases |members|
  {
    hide At, Quote, Members, Value, MembersText;
    var (key, value) := members[0];
    var next := i + |Quote(key)| + 1 + |Quote(value)|;
    MembersParts(s, i, members, next);
    MemberReads(f, s, i, key, value, next, before);
    if |members| == 1 {
      assert members[1..] == [];
    } else {
      MembersStart(s, next + 1, members[1..]);
      NoSpace(s, next + 1);
      MembersRead(f, s, next + 1, members[1..], before[key := Text(value)]);
    }
  }

  lemma MembersStart(s: string, i: nat, members: seq<(string, string)>)
    requires members != [] && At(s, i, MembersText(members) + ['}'])
    ensures i < |s| && s[i] == '"'
  {
    AtIndex(s, i, MembersText(members) + ['}'], 0);
  }

  lemma LoadsObject(f: Floats, members: seq<(string, string)>)
    requires members != []
    ensures Loads(f, ObjectText(members)) == Some(Object(Updated(map[], members)))
  {
    hide At, Quote, Members, MembersText;
    var s, text := ObjectText(members), MembersText(members);
    assert s == ['{'] + (text + ['}']);
    AtWhole(s);
    AtSplit(s, 0, ['{'], text + ['}']);
    AtOne(s, 0, '{');
    MembersRead(f, s, 1, members, map[]);
    MembersStart(s, 1, members);
    NoSpace(s, 0);
    NoSpace(s, 1);
  }

  // ---------------------------------------------------------- what a text contains

  /** Written strings hold no control character. */
  lemma {:induction false} EscapedPrintable(t: string)
    ensures forall k :: 0 <= k < |Escaped(t)| ==> Escaped(t)[k] >= ' '
  {
    if t != [] {
      EscapedPrintable(t[1..]);
      assert forall k :: 0 <= k < |Escape(t[0])| ==> Escape(t[0])[k] >= ' ';
    }
  }
}
