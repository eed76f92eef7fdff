/** A reference encoder for the decoded values and the proof that `json.loads`
    (`Json.Decode`) reads every well-formed value back from its encoding. The
    encoder writes no whitespace and escapes only what a JSON string must. Each
    encoder takes the text that is to follow what it writes, so an encoding is
    built front to back. */
module JsonEncode {
  import opened Wrappers
  import opened Json
  import PyStr

  /** A number lexeme the scanner reads whole and converts. */
  predicate ValidLexeme(x: string)
  {
    |x| > 0 && NumberLength(x) == |x| && !IntegerTooLong(x)
  }

  /** A value `json.loads` can produce: every number lexeme valid and every
      object a dict with distinct keys (`JsonWellFormed.DecodeWellFormed` shows
      that every decoded value is one). */
  predicate WellFormed(v: Json)
    decreases v
  {
    match v
    case Num(x) => ValidLexeme(x)
    case Arr(items) => forall i :: 0 <= i < |items| ==> WellFormed(items[i])
    case Obj(ms) => DistinctKeys(ms) && forall i :: 0 <= i < |ms| ==> WellFormed(ms[i].value)
    case _ => true
  }

  function HexChar(d: nat): (c: char)
    requires d < 16
    ensures IsHexDigit(c) && HexValue(c) == d
  {
    if d < 10 then ('0' as int + d) as char else ('a' as int + d - 10) as char
  }

  /** The text standing for one character inside a string literal. */
  function EscapeChar(c: char): (r: string)
    ensures r != [] && (r[0] == c || r[0] == '\\')
  {
    if c == '"' then ['\\', '"']
    else if c == '\\' then ['\\', '\\']
    else if c as int < 0x20 then ['\\', 'u', '0', '0', HexChar(c as int / 16), HexChar(c as int % 16)]
    else [c]
  }

  /** The characters of `s` escaped, followed by `k`. */
  function EscapeTo(s: string, k: string): string
  {
    if s == [] then k else EscapeChar(s[0]) + EscapeTo(s[1..], k)
  }

  /** The encoding of `v` followed by `k`. */
  function EncodeTo(v: Json, k: string): string
    decreases v, 1
  {
    match v
    case Null => "null" + k
    case Bool(b) => (if b then "true" else "false") + k
    case Num(x) => x + k
    case Str(text) => ['"'] + EscapeTo(text, ['"'] + k)
    case Arr(items) => ['['] + if items == [] then [']'] + k else ItemsTo(items, [']'] + k)
    case Obj(ms) => ['{'] + if ms == [] then ['}'] + k else MembersTo(ms, ['}'] + k)
  }

  /** The elements of a non-empty array, separated by commas, followed by `k`. */
  function ItemsTo(items: seq<Json>, k: string): string
    requires items != []
    decreases items, 0
  {
    EncodeTo(items[0], if |items| == 1 then k else [','] + ItemsTo(items[1..], k))
  }

  /** The members of a non-empty object, separated by commas, followed by `k`. */
  function MembersTo(ms: seq<Member>, k: string): string
    requires ms != []
    decreases ms, 0
  {
    var next := if |ms| == 1 then k else [','] + MembersTo(ms[1..], k);
    ['"'] + EscapeTo(ms[0].key, ['"'] + ([':'] + EncodeTo(ms[0].value, next)))
  }

  /** The compact encoding of `v`: no whitespace; in strings the quote and the
      backslash are escaped with a backslash, control characters are written as
      `\u00XX`, and every other character as itself. */
  function Encode(v: Json): string
  {
    EncodeTo(v, [])
  }

  /** The number of values in `v`, counting `v` itself: the measure the
      round-trip proofs below descend on. */
  function Size(v: Json): (n: nat)
    ensures n >= 1
    decreases v, 1
  {
    match v
    case Arr(items) => 1 + ItemsSize(items)
    case Obj(ms) => 1 + MembersSize(ms)
    case _ => 1
  }

  function ItemsSize(items: seq<Json>): nat
    decreases items, 0
  {
    if items == [] then 0 else Size(items[0]) + ItemsSize(items[1..])
  }

  function MembersSize(ms: seq<Member>): nat
    decreases ms, 0
  {
    if ms == [] then 0 else Size(ms[0].value) + MembersSize(ms[1..])
  }

  /** What may follow a value inside an encoding: nothing, or a closing bracket,
      a closing brace or a comma. */
  predicate Delimits(rest: string)
  {
    rest == [] || rest[0] == ',' || rest[0] == ']' || rest[0] == '}'
  }

  /** The first character of an encoding: never whitespace of either kind,
      never a byte order mark, never a closing bracket or brace. */
  lemma EncodeStart(v: Json, k: string)
    requires WellFormed(v)
    ensures EncodeTo(v, k) != []
    ensures var c := EncodeTo(v, k)[0];
      (c == 'n' || c == 't' || c == 'f' || c == '"' || c == '[' || c == '{' || StartsNumber(c)) &&
      !IsJsonSpace(c) && !PyStr.IsSpace(c) && c as int != 0xFEFF && c != ']' && c != '}'
  {
    match v
    case Num(x) =>
      assert NumberLength(x) == |x| > 0;
      assert (x + k)[0] == x[0];
    case _ =>
  }

  /** A value's encoding followed by a delimiter is skipped over by no
      whitespace scan. */
  lemma EncodeUnskipped(v: Json, k: string)
    requires WellFormed(v)
    ensures SkipSpace(EncodeTo(v, k)) == EncodeTo(v, k)
  {
    EncodeStart(v, k);
  }

  /** `c` put in front of the text a string scan returns. */
  function Prepend(c: char, r: Option<(string, string)>): Option<(string, string)>
  {
    match r
    case None => None
    case Some((text, rest)) => Some(([c] + text, rest))
  }

  /** A control character written as `\u00XY` reads back as itself. */
  lemma ControlEscapeRead(c: char, tail: string)
    requires c as int < 0x20
    ensures ParseString(EscapeChar(c) + tail) == Prepend(c, ParseString(tail))
  {
    var input := EscapeChar(c) + tail;
    var e := input[1..];
    assert e == ['u', '0', '0', HexChar(c as int / 16), HexChar(c as int % 16)] + tail;
    assert HexAt(e, 1);
    assert Hex4(e, 1) == c as int;
    assert Unescape(e) == Some((c, 5));
    assert input[6..] == tail;
  }

  /** Each escaped character reads back as itself, whatever follows it. */
  lemma EscapeCharRead(c: char, tail: string)
    ensures ParseString(EscapeChar(c) + tail) == Prepend(c, ParseString(tail))
  {
    var input := EscapeChar(c) + tail;
    if c == '"' || c == '\\' {
      assert input[1..] == [c] + tail;
      assert Unescape(input[1..]) == Some((c, 1));
      assert input[2..] == tail;
    } else if c as int < 0x20 {
      ControlEscapeRead(c, tail);
    } else {
      assert input[1..] == tail;
    }
  }

  /** Appending a delimiter does not change where a run of digits ends. */
  lemma {:induction false} DigitsEndExtend(t: string, rest: string, i: nat)
    requires i <= |t| && Delimits(rest)
    ensures DigitsEnd(t + rest, i) == DigitsEnd(t, i)
    decreases |t| - i
  {
    var s := t + rest;
    if i < |t| {
      assert s[i] == t[i];
      if PyStr.IsDigit(t[i]) {
        DigitsEndExtend(t, rest, i + 1);
      }
    } else if rest != [] {
      assert s[i] == rest[0];
    }
  }

  lemma HasPrefixExtend(x: string, rest: string, p: string)
    requires Delimits(rest)
    requires forall i :: 0 <= i < |p| ==> p[i] != ',' && p[i] != ']' && p[i] != '}'
    ensures HasPrefix(x + rest, p) == HasPrefix(x, p)
  {
    if |p| <= |x| {
      assert (x + rest)[..|p|] == x[..|p|];
    } else if |p| <= |x + rest| {
      assert (x + rest)[..|p|][|x|] == rest[0];
    }
  }

  lemma IntegerEndExtend(t: string, rest: string, i: nat)
    requires i <= |t| && Delimits(rest)
    ensures IntegerEnd(t + rest, i) == IntegerEnd(t, i)
  {
    var s := t + rest;
    if i < |t| {
      assert s[i] == t[i];
      if '1' <= t[i] <= '9' {
        DigitsEndExtend(t, rest, i + 1);
      }
    } else if rest != [] {
      assert s[i] == rest[0];
    }
  }

  lemma FractionEndExtend(t: string, rest: string, i: nat)
    requires i <= |t| && Delimits(rest)
    ensures FractionEnd(t + rest, i) == FractionEnd(t, i)
  {
    var s := t + rest;
    if i + 1 < |t| {
      assert s[i] == t[i] && s[i + 1] == t[i + 1];
      if t[i] == '.' && PyStr.IsDigit(t[i + 1]) {
        DigitsEndExtend(t, rest, i + 2);
      }
    } else if i + 1 == |t| {
      assert s[i] == t[i];
      if rest != [] {
        assert s[i + 1] == rest[0];
      }
    } else if rest != [] {
      assert s[i] == rest[0];
    }
  }

  lemma ExponentEndExtend(t: string, rest: string, i: nat)
    requires i <= |t| && Delimits(rest)
    ensures ExponentEnd(t + rest, i) == ExponentEnd(t, i)
  {
    var s := t + rest;
    if i + 1 < |t| {
      assert s[i] == t[i] && s[i + 1] == t[i + 1];
      if t[i] == 'e' || t[i] == 'E' {
        if i + 2 < |t| {
          assert s[i + 2] == t[i + 2];
          var m := if t[i + 1] == '+' || t[i + 1] == '-' then i + 2 else i + 1;
          if PyStr.IsDigit(t[m]) {
            DigitsEndExtend(t, rest, m + 1);
          }
        } else {
          if PyStr.IsDigit(t[i + 1]) {
            DigitsEndExtend(t, rest, i + 2);
          }
          if rest != [] {
            assert s[i + 2] == rest[0];
          }
        }
      }
    } else if i + 1 == |t| {
      assert s[i] == t[i];
      if rest != [] {
        assert s[i + 1] == rest[0];
      }
    } else if rest != [] {
      assert s[i] == rest[0];
    }
  }

  lemma UnsignedEndExtend(t: string, rest: string, i: nat)
    requires i <= |t| && Delimits(rest)
    ensures UnsignedEnd(t + rest, i) == UnsignedEnd(t, i)
  {
    IntegerEndExtend(t, rest, i);
    var a := IntegerEnd(t, i);
    if a != i {
      FractionEndExtend(t, rest, a);
      ExponentEndExtend(t, rest, FractionEnd(t, a));
    }
  }

  /** Appending a delimiter never changes how much of the text is read as a
      number: no delimiter can belong to one. */
  lemma NumberLengthExtend(x: string, rest: string)
    requires Delimits(rest)
    ensures NumberLength(x + rest) == NumberLength(x)
  {
    var s := x + rest;
    if x == [] {
      assert s == rest;
      if rest != [] {
        assert s[0] != 'N' && s[0] != 'I' && s[0] != '-' && !PyStr.IsDigit(s[0]);
      }
    } else {
      assert s[0] == x[0];
      if x[0] == 'N' {
        HasPrefixExtend(x, rest, "NaN");
      } else if x[0] == 'I' {
        HasPrefixExtend(x, rest, "Infinity");
      } else if x[0] == '-' {
        HasPrefixExtend(x, rest, "-Infinity");
        UnsignedEndExtend(x, rest, 1);
      } else {
        UnsignedEndExtend(x, rest, 0);
      }
    }
  }

  /** A punctuation character in front of `t` is not skipped as whitespace,
      and what follows it is `t`. */
  lemma Unspaced(c: char, t: string)
    requires c == ',' || c == ':' || c == ']' || c == '}'
    ensures SkipSpace([c] + t) == [c] + t
    ensures ([c] + t)[0] == c && ([c] + t)[1..] == t
    ensures c != ':' ==> Delimits([c] + t)
  {
    assert !IsJsonSpace(c);
  }

  // Single steps of the scanner, stated once so that the round-trip proofs
  // below need not unfold the mutually recursive parsers themselves.

  lemma ParseValueArr(s: string)
    requires s != [] && s[0] == '['
    ensures ParseValue(s) == ParseArray(SkipSpace(s[1..]))
  {
  }

  lemma ParseValueObj(s: string)
    requires s != [] && s[0] == '{'
    ensures ParseValue(s) == ParseObject(SkipSpace(s[1..]))
  {
  }

  lemma ParseValueNum(s: string)
    requires s != [] && StartsNumber(s[0])
    ensures ParseValue(s) == ParseNumber(s)
  {
    assert s[0] != '"' && s[0] != '{' && s[0] != '[' && s[0] != 'n' && s[0] != 't' && s[0] != 'f';
  }

  lemma ArrayOpen(s: string, items: seq<Json>, rest: string)
    requires s == [] || s[0] != ']'
    requires ParseElements(s) == Some((items, rest))
    ensures ParseArray(s) == Some((Arr(items), rest))
  {
  }

  lemma ObjectOpen(s: string, ms: seq<Member>, rest: string)
    requires s == [] || s[0] != '}'
    requires ParseMembers(s, []) == Some((ms, rest))
    ensures ParseObject(s) == Some((Obj(ms), rest))
  {
  }

  lemma ElementsLast(s: string, v: Json, rest: string)
    requires ParseValue(s) == Some((v, [']'] + rest))
    ensures ParseElements(s) == Some(([v], rest))
  {
    Unspaced(']', rest);
  }

  lemma ElementsMore(s: string, v: Json, next: string, vs: seq<Json>, rest: string)
    requires ParseValue(s) == Some((v, [','] + next))
    requires SkipSpace(next) == next
    requires ParseElements(next) == Some((vs, rest))
    ensures ParseElements(s) == Some(([v] + vs, rest))
  {
    Unspaced(',', next);
    assert ',' != ']';
  }

  /** A non-empty array body starts with its first element's encoding. */
  lemma ItemsUnskipped(items: seq<Json>, k: string)
    requires items != [] && WellFormed(items[0])
    ensures ItemsTo(items, k) != [] && ItemsTo(items, k)[0] != ']'
    ensures SkipSpace(ItemsTo(items, k)) == ItemsTo(items, k)
  {
    EncodeStart(items[0], if |items| == 1 then k else [','] + ItemsTo(items[1..], k));
  }

  lemma LiteralRoundTrip(v: Json, rest: string)
    requires v.Null? || v.Bool?
    ensures ParseValue(EncodeTo(v, rest)) == Some((v, rest))
  {
    var s := EncodeTo(v, rest);
    if v.Null? {
      assert HasPrefix(s, "null") && s[4..] == rest;
    } else if v.b {
      assert HasPrefix(s, "true") && s[4..] == rest;
    } else {
      assert HasPrefix(s, "false") && s[5..] == rest;
    }
  }

  lemma NumRoundTrip(x: string, rest: string)
    requires ValidLexeme(x) && Delimits(rest)
    ensures ParseValue(x + rest) == Some((Num(x), rest))
  {
    var s := x + rest;
    assert s[0] == x[0];
    ParseValueNum(s);
    NumberLengthExtend(x, rest);
    assert s[..|x|] == x && s[|x|..] == rest;
  }

  /** Escaping is undone by the string scanner, whatever follows the closing quote. */
  lemma {:induction false} EscapeRoundTrip(s: string, rest: string)
    ensures ParseString(EscapeTo(s, ['"'] + rest)) == Some((s, rest))
  {
    if s == [] {
      assert (['"'] + rest)[1..] == rest;
    } else {
      EscapeRoundTrip(s[1..], rest);
      EscapeCharRead(s[0], EscapeTo(s[1..], ['"'] + rest));
      assert [s[0]] + s[1..] == s;
    }
  }

  lemma {:induction false} ArrRoundTrip(items: seq<Json>, rest: string)
    requires forall i :: 0 <= i < |items| ==> WellFormed(items[i])
    requires Delimits(rest)
    ensures ParseValue(EncodeTo(Arr(items), rest)) == Some((Arr(items), rest))
    decreases Size(Arr(items)), 1
  {
    if items == [] {
      EmptyRoundTrip(Arr(items), rest);
    } else {
      ElementsRoundTrip(items, rest);
      ArrayRead(items, rest);
    }
  }

  lemma {:induction false} ObjRoundTrip(ms: seq<Member>, rest: string)
    requires DistinctKeys(ms) && forall i :: 0 <= i < |ms| ==> WellFormed(ms[i].value)
    requires Delimits(rest)
    ensures ParseValue(EncodeTo(Obj(ms), rest)) == Some((Obj(ms), rest))
    decreases Size(Obj(ms)), 1
  {
    if ms == [] {
      EmptyRoundTrip(Obj(ms), rest);
    } else {
      assert [] + ms == ms;
      MembersRoundTrip(ms, [], rest);
      ObjectRead(ms, rest);
    }
  }

  /** `[]` and `{}` read back. */
  lemma EmptyRoundTrip(v: Json, rest: string)
    requires v == Arr([]) || v == Obj([])
    ensures ParseValue(EncodeTo(v, rest)) == Some((v, rest))
  {
    var s := EncodeTo(v, rest);
    if v.Arr? {
      ParseValueArr(s);
      assert s[1..] == [']'] + rest;
      Unspaced(']', rest);
    } else {
      ParseValueObj(s);
      assert s[1..] == ['}'] + rest;
      Unspaced('}', rest);
    }
  }

  /** A non-empty array reads back once its elements do. */
  lemma ArrayRead(items: seq<Json>, rest: string)
    requires items != [] && WellFormed(items[0])
    requires ParseElements(ItemsTo(items, [']'] + rest)) == Some((items, rest))
    ensures ParseValue(EncodeTo(Arr(items), rest)) == Some((Arr(items), rest))
  {
    var s := EncodeTo(Arr(items), rest);
    var body := ItemsTo(items, [']'] + rest);
    ParseValueArr(s);
    assert s[1..] == body;
    ItemsUnskipped(items, [']'] + rest);
    ArrayOpen(body, items, rest);
  }

  /** A non-empty object reads back once its members do. */
  lemma ObjectRead(ms: seq<Member>, rest: string)
    requires ms != []
    requires ParseMembers(MembersTo(ms, ['}'] + rest), []) == Some((ms, rest))
    ensures ParseValue(EncodeTo(Obj(ms), rest)) == Some((Obj(ms), rest))
  {
    var s := EncodeTo(Obj(ms), rest);
    var body := MembersTo(ms, ['}'] + rest);
    ParseValueObj(s);
    assert s[1..] == body;
    MembersUnskipped(ms, ['}'] + rest);
    ObjectOpen(body, ms, rest);
  }

  /** A non-empty object body starts with the quote of its first key. */
  lemma MembersUnskipped(ms: seq<Member>, k: string)
    requires ms != []
    ensures MembersTo(ms, k) != [] && MembersTo(ms, k)[0] == '"'
    ensures SkipSpace(MembersTo(ms, k)) == MembersTo(ms, k)
  {
    assert !IsJsonSpace('"');
  }

  /** Every well-formed value is scanned back from its encoding, leaving
      exactly the text that followed it. */
  lemma {:induction false} ValueRoundTrip(v: Json, rest: string)
    requires WellFormed(v) && Delimits(rest)
    ensures ParseValue(EncodeTo(v, rest)) == Some((v, rest))
    decreases Size(v), 2
  {
    match v
    case Null => LiteralRoundTrip(v, rest);
    case Bool(_) => LiteralRoundTrip(v, rest);
    case Num(x) => NumRoundTrip(x, rest);
    case Str(text) => EscapeRoundTrip(text, rest);
    case Arr(items) => ArrRoundTrip(items, rest);
    case Obj(ms) => ObjRoundTrip(ms, rest);
  }

  lemma {:induction false} ElementsRoundTrip(items: seq<Json>, rest: string)
    requires items != []
    requires forall i :: 0 <= i < |items| ==> WellFormed(items[i])
    requires Delimits(rest)
    ensures ParseElements(ItemsTo(items, [']'] + rest)) == Some((items, rest))
    decreases ItemsSize(items), 5
  {
    if |items| == 1 {
      LastElementRoundTrip(items, rest);
    } else {
      var next := ItemsTo(items[1..], [']'] + rest);
      ItemsUnskipped(items[1..], [']'] + rest);
      ElementsRoundTrip(items[1..], rest);
      NextElementRoundTrip(items, rest);
    }
  }

  lemma LastElementRoundTrip(items: seq<Json>, rest: string)
    requires |items| == 1 && WellFormed(items[0])
    ensures ParseElements(ItemsTo(items, [']'] + rest)) == Some((items, rest))
    decreases ItemsSize(items), 4
  {
    var s := ItemsTo(items, [']'] + rest);
    assert s == EncodeTo(items[0], [']'] + rest);
    ValueRoundTrip(items[0], [']'] + rest);
    ElementsLast(s, items[0], rest);
    assert [items[0]] == items;
  }

  lemma NextElementRoundTrip(items: seq<Json>, rest: string)
    requires |items| > 1 && WellFormed(items[0])
    requires ParseElements(ItemsTo(items[1..], [']'] + rest)) == Some((items[1..], rest))
    requires SkipSpace(ItemsTo(items[1..], [']'] + rest)) == ItemsTo(items[1..], [']'] + rest)
    ensures ParseElements(ItemsTo(items, [']'] + rest)) == Some((items, rest))
    decreases ItemsSize(items), 4
  {
    var next := ItemsTo(items[1..], [']'] + rest);
    Unspaced(',', next);
    ValueRoundTrip(items[0], [','] + next);
    NextElementRead(items, rest);
  }

  lemma NextElementRead(items: seq<Json>, rest: string)
    requires |items| > 1
    requires var next := ItemsTo(items[1..], [']'] + rest);
      ParseValue(EncodeTo(items[0], [','] + next)) == Some((items[0], [','] + next))
    requires ParseElements(ItemsTo(items[1..], [']'] + rest)) == Some((items[1..], rest))
    requires SkipSpace(ItemsTo(items[1..], [']'] + rest)) == ItemsTo(items[1..], [']'] + rest)
    ensures ParseElements(ItemsTo(items, [']'] + rest)) == Some((items, rest))
  {
    var next := ItemsTo(items[1..], [']'] + rest);
    ItemsSplit(items, rest);
    ElementsMore(ItemsTo(items, [']'] + rest), items[0], next, items[1..], rest);
    HeadTail(items);
  }

  /** A non-empty array body is its first element followed by a comma and the rest. */
  lemma ItemsSplit(items: seq<Json>, rest: string)
    requires |items| > 1
    ensures ItemsTo(items, [']'] + rest) == EncodeTo(items[0], [','] + ItemsTo(items[1..], [']'] + rest))
  {
  }

  lemma HeadTail<T>(s: seq<T>)
    requires s != []
    ensures [s[0]] + s[1..] == s
  {
  }

  /** A key not among the keys read so far is appended by the dict store. */
  lemma SetFresh(acc: seq<Member>, ms: seq<Member>)
    requires ms != [] && DistinctKeys(acc + ms)
    ensures Set(acc, ms[0].key, ms[0].value) == acc + [ms[0]]
    ensures DistinctKeys((acc + [ms[0]]) + ms[1..])
  {
    var k := ms[0].key;
    forall j | 0 <= j < |acc| ensures acc[j].key != k {
      assert (acc + ms)[j] == acc[j] && (acc + ms)[|acc|] == ms[0];
    }
    assert (acc + [ms[0]]) + ms[1..] == acc + ms;
  }

  lemma MemberRead(s: string, key: string, v: Json, valueText: string, after: string)
    requires s != [] && s[0] == '"'
    requires ParseString(s[1..]) == Some((key, [':'] + valueText))
    requires SkipSpace(valueText) == valueText
    requires ParseValue(valueText) == Some((v, after))
    ensures ParseMember(s) == Some((key, v, after))
  {
    Unspaced(':', valueText);
  }

  lemma MembersLast(s: string, acc: seq<Member>, key: string, v: Json, rest: string)
    requires ParseMember(s) == Some((key, v, ['}'] + rest))
    ensures ParseMembers(s, acc) == Some((Set(acc, key, v), rest))
  {
    Unspaced('}', rest);
  }

  lemma MembersMore(s: string, acc: seq<Member>, key: string, v: Json, next: string,
                    result: seq<Member>, rest: string)
    requires ParseMember(s) == Some((key, v, [','] + next))
    requires SkipSpace(next) == next
    requires ParseMembers(next, Set(acc, key, v)) == Some((result, rest))
    ensures ParseMembers(s, acc) == Some((result, rest))
  {
    Unspaced(',', next);
    assert ',' != '}';
  }

  /** What follows the value of an object's first member. */
  function AfterMember(ms: seq<Member>, rest: string): string
    requires ms != []
  {
    if |ms| == 1 then ['}'] + rest else [','] + MembersTo(ms[1..], ['}'] + rest)
  }

  /** The first member of an object body is read back: its key, the colon and
      its value, leaving what follows the value. */
  lemma FirstMemberRead(ms: seq<Member>, rest: string)
    requires ms != [] && WellFormed(ms[0].value)
    ensures ParseMember(MembersTo(ms, ['}'] + rest)) == Some((ms[0].key, ms[0].value, AfterMember(ms, rest)))
    decreases MembersSize(ms), 3
  {
    if |ms| == 1 {
      Unspaced('}', rest);
    } else {
      Unspaced(',', MembersTo(ms[1..], ['}'] + rest));
    }
    ValueRoundTrip(ms[0].value, AfterMember(ms, rest));
    FirstMemberKey(ms, rest);
  }

  lemma FirstMemberKey(ms: seq<Member>, rest: string)
    requires ms != [] && WellFormed(ms[0].value)
    requires ParseValue(EncodeTo(ms[0].value, AfterMember(ms, rest))) == Some((ms[0].value, AfterMember(ms, rest)))
    ensures ParseMember(MembersTo(ms, ['}'] + rest)) == Some((ms[0].key, ms[0].value, AfterMember(ms, rest)))
  {
    var next := AfterMember(ms, rest);
    var valueText := EncodeTo(ms[0].value, next);
    var s := MembersTo(ms, ['}'] + rest);
    assert s[1..] == EscapeTo(ms[0].key, ['"'] + ([':'] + valueText));
    EscapeRoundTrip(ms[0].key, [':'] + valueText);
    EncodeUnskipped(ms[0].value, next);
    MemberRead(s, ms[0].key, ms[0].value, valueText, next);
  }

  lemma {:induction false} MembersRoundTrip(ms: seq<Member>, acc: seq<Member>, rest: string)
    requires ms != []
    requires DistinctKeys(acc + ms)
    requires forall i :: 0 <= i < |ms| ==> WellFormed(ms[i].value)
    requires Delimits(rest)
    ensures ParseMembers(MembersTo(ms, ['}'] + rest), acc) == Some((acc + ms, rest))
    decreases MembersSize(ms), 5
  {
    SetFresh(acc, ms);
    if |ms| == 1 {
      LastMemberRoundTrip(ms, acc, rest);
    } else {
      MembersRoundTrip(ms[1..], acc + [ms[0]], rest);
      NextMemberRoundTrip(ms, acc, rest);
    }
  }

  lemma LastMemberRoundTrip(ms: seq<Member>, acc: seq<Member>, rest: string)
    requires |ms| == 1 && WellFormed(ms[0].value)
    requires Set(acc, ms[0].key, ms[0].value) == acc + [ms[0]]
    ensures ParseMembers(MembersTo(ms, ['}'] + rest), acc) == Some((acc + ms, rest))
    decreases MembersSize(ms), 4
  {
    FirstMemberRead(ms, rest);
    AppendHead(acc, ms);
    MembersLast(MembersTo(ms, ['}'] + rest), acc, ms[0].key, ms[0].value, rest);
  }

  lemma NextMemberRoundTrip(ms: seq<Member>, acc: seq<Member>, rest: string)
    requires |ms| > 1 && WellFormed(ms[0].value)
    requires Set(acc, ms[0].key, ms[0].value) == acc + [ms[0]]
    requires ParseMembers(MembersTo(ms[1..], ['}'] + rest), acc + [ms[0]]) == Some(((acc + [ms[0]]) + ms[1..], rest))
    ensures ParseMembers(MembersTo(ms, ['}'] + rest), acc) == Some((acc + ms, rest))
    decreases MembersSize(ms), 4
  {
    var next := MembersTo(ms[1..], ['}'] + rest);
    FirstMemberRead(ms, rest);
    AppendHead(acc, ms);
    MembersUnskipped(ms[1..], ['}'] + rest);
    MembersMore(MembersTo(ms, ['}'] + rest), acc, ms[0].key, ms[0].value, next, acc + ms, rest);
  }

  /** Moving the head of `ms` onto the end of `acc`. */
  lemma AppendHead<T>(acc: seq<T>, ms: seq<T>)
    requires ms != []
    ensures (acc + [ms[0]]) + ms[1..] == acc + ms
    ensures |ms| == 1 ==> acc + [ms[0]] == acc + ms
  {
  }

  /** `json.loads` inverts the encoder on every value it can produce. */
  lemma DecodeEncode(v: Json)
    requires WellFormed(v)
    ensures Decode(Encode(v)) == Some(v)
  {
    EncodeUnskipped(v, []);
    EncodeStart(v, []);
    ValueRoundTrip(v, []);
  }

  /** The last character of a non-empty text. */
  function Last(s: string): char
    requires s != []
  {
    s[|s| - 1]
  }

  lemma LastAppend(a: string, b: string)
    requires b != []
    ensures a + b != [] && Last(a + b) == Last(b)
  {
  }

  lemma {:induction false} EscapeEnds(s: string, k: string)
    requires k != []
    ensures EscapeTo(s, k) != [] && Last(EscapeTo(s, k)) == Last(k)
  {
    if s != [] {
      EscapeEnds(s[1..], k);
      LastAppend(EscapeChar(s[0]), EscapeTo(s[1..], k));
    }
  }

  /** An encoding followed by a non-empty `k` ends as `k` does. */
  lemma {:induction false} EncodeEnds(v: Json, k: string)
    requires k != []
    ensures EncodeTo(v, k) != [] && Last(EncodeTo(v, k)) == Last(k)
    decreases v, 1
  {
    match v
    case Null =>
      LastAppend("null", k);
    case Bool(b) =>
      LastAppend(if b then "true" else "false", k);
    case Num(x) =>
      LastAppend(x, k);
    case Str(text) =>
      LastAppend(['"'], k);
      EscapeEnds(text, ['"'] + k);
      LastAppend(['"'], EscapeTo(text, ['"'] + k));
    case Arr(items) =>
      var close := [']'] + k;
      LastAppend([']'], k);
      if items == [] {
        LastAppend(['['], close);
      } else {
        ItemsEnds(items, close);
        LastAppend(['['], ItemsTo(items, close));
      }
    case Obj(ms) =>
      var close := ['}'] + k;
      LastAppend(['}'], k);
      if ms == [] {
        LastAppend(['{'], close);
      } else {
        MembersEnds(ms, close);
        LastAppend(['{'], MembersTo(ms, close));
      }
  }

  lemma {:induction false} ItemsEnds(items: seq<Json>, k: string)
    requires items != [] && k != []
    ensures ItemsTo(items, k) != [] && Last(ItemsTo(items, k)) == Last(k)
    decreases items, 0
  {
    if |items| == 1 {
      EncodeEnds(items[0], k);
    } else {
      ItemsEnds(items[1..], k);
      LastAppend([','], ItemsTo(items[1..], k));
      EncodeEnds(items[0], [','] + ItemsTo(items[1..], k));
    }
  }

  lemma {:induction false} MembersEnds(ms: seq<Member>, k: string)
    requires ms != [] && k != []
    ensures MembersTo(ms, k) != [] && Last(MembersTo(ms, k)) == Last(k)
    decreases ms, 0
  {
    var next := if |ms| == 1 then k else [','] + MembersTo(ms[1..], k);
    if |ms| > 1 {
      MembersEnds(ms[1..], k);
      LastAppend([','], MembersTo(ms[1..], k));
    }
    var value := EncodeTo(ms[0].value, next);
    EncodeEnds(ms[0].value, next);
    LastAppend([':'], value);
    LastAppend(['"'], [':'] + value);
    EscapeEnds(ms[0].key, ['"'] + ([':'] + value));
    LastAppend(['"'], EscapeTo(ms[0].key, ['"'] + ([':'] + value)));
  }

  /** The last character of an encoding closes a literal, a string, an array, an
      object or a number. */
  lemma EncodeLast(v: Json)
    requires WellFormed(v)
    ensures Encode(v) != []
    ensures var c := Last(Encode(v));
      c == 'l' || c == 'e' || c == '"' || c == ']' || c == '}' || EndsNumber(c)
  {
    var none: string := [];
    match v
    case Num(x) =>
      assert Encode(v) == x && NumberLength(x) == |x|;
    case Str(text) =>
      assert ['"'] + none == ['"'];
      EscapeEnds(text, ['"']);
    case Arr(items) =>
      assert [']'] + none == [']'];
      if items != [] { ItemsEnds(items, [']']); }
    case Obj(ms) =>
      assert ['}'] + none == ['}'];
      if ms != [] { MembersEnds(ms, ['}']); }
    case _ =>
  }

  /** An encoding neither starts nor ends with whitespace, so `strip()` leaves it
      as it is. */
  lemma EncodeStripped(v: Json)
    requires WellFormed(v)
    ensures PyStr.Strip(Encode(v)) == Encode(v)
  {
    EncodeStart(v, []);
    EncodeLast(v);
    var e := Encode(v);
    assert !PyStr.IsSpace(e[|e| - 1]);
    PyStr.StripUnspaced(e);
  }
}
