/** JSON values as Python's `json` module produces them, and `json.loads` on a
    `str`, following the scanner of CPython's `json` package: strict strings,
    `NaN`/`Infinity`/`-Infinity` accepted, duplicate object keys resolved the way
    a `dict` resolves them (the later value wins, in the position of the first). */
module Json {
  import opened Wrappers
  import PyStr

  /** A decoded JSON value. A number keeps the text it was written as, so
      integers, floats and the three named constants need no arithmetic here;
      an object is a `dict`, i.e. its members in insertion order. */
  datatype Json =
    | Null
    | Bool(b: bool)
    | Num(lexeme: string)
    | Str(text: string)
    | Arr(items: seq<Json>)
    | Obj(members: seq<Member>)

  datatype Member = Member(key: string, value: Json)

  // ---------------------------------------------------------------------------
  // Objects as Python dicts
  // ---------------------------------------------------------------------------

  /** No key occurs twice, as in every `dict`. */
  predicate DistinctKeys(ms: seq<Member>)
  {
    forall i, j :: 0 <= i < j < |ms| ==> ms[i].key != ms[j].key
  }

  /** The position of key `k`, or -1 when it is absent. */
  function KeyIndex(ms: seq<Member>, k: string): (i: int)
    ensures -1 <= i < |ms|
    ensures i >= 0 ==> ms[i].key == k && forall j :: 0 <= j < i ==> ms[j].key != k
    ensures i == -1 <==> forall j :: 0 <= j < |ms| ==> ms[j].key != k
  {
    if ms == [] then -1
    else if ms[0].key == k then 0
    else
      var j := KeyIndex(ms[1..], k);
      if j == -1 then -1 else j + 1
  }

  /** `d.get(k)`. */
  function Get(ms: seq<Member>, k: string): Option<Json>
  {
    var i := KeyIndex(ms, k);
    if i == -1 then None else Some(ms[i].value)
  }

  /** `d[k] = v`: an existing key keeps its position and takes the new value, a
      new key is appended at the end. */
  function Set(ms: seq<Member>, k: string, v: Json): seq<Member>
  {
    var i := KeyIndex(ms, k);
    if i == -1 then ms + [Member(k, v)] else ms[i := Member(k, v)]
  }

  /** Reading `k` back after `d[k] = v` gives `v`, and every other key reads
      as before. */
  lemma SetGet(ms: seq<Member>, k: string, v: Json)
    ensures Get(Set(ms, k, v), k) == Some(v)
    ensures forall k' :: k' != k ==> Get(Set(ms, k, v), k') == Get(ms, k')
  {
    var i := KeyIndex(ms, k);
    var r := Set(ms, k, v);
    KeyIndexIs(r, k, if i == -1 then |ms| else i);
    forall k' | k' != k ensures KeyIndex(r, k') == KeyIndex(ms, k') {
      KeyIndexIs(r, k', KeyIndex(ms, k'));
    }
  }

  /** `d[k] = v` keeps the keys of a dict distinct. */
  lemma SetDistinct(ms: seq<Member>, k: string, v: Json)
    requires DistinctKeys(ms)
    ensures DistinctKeys(Set(ms, k, v))
  {
    var i := KeyIndex(ms, k);
    var r := Set(ms, k, v);
    if i == -1 {
      forall a, b | 0 <= a < b < |r| ensures r[a].key != r[b].key {
        if b == |ms| { assert r[a] == ms[a]; } else { assert r[a] == ms[a] && r[b] == ms[b]; }
      }
    } else {
      assert forall j :: 0 <= j < |r| ==> r[j].key == ms[j].key;
    }
  }

  /** The position of a key is fixed by being the first index holding it. */
  lemma KeyIndexIs(ms: seq<Member>, k: string, p: int)
    requires -1 <= p < |ms|
    requires p >= 0 ==> ms[p].key == k
    requires forall j :: 0 <= j < |ms| && (p == -1 || j < p) ==> ms[j].key != k
    ensures KeyIndex(ms, k) == p
  {
  }

  // ---------------------------------------------------------------------------
  // Lexical pieces
  // ---------------------------------------------------------------------------

  /** The whitespace JSON allows between tokens (a narrower set than `str.isspace`). */
  predicate IsJsonSpace(c: char)
  {
    c == ' ' || c == '\t' || c == '\n' || c == '\r'
  }

  /** `s` without its leading JSON whitespace. */
  function SkipSpace(s: string): (r: string)
    ensures |r| <= |s| && r == s[|s| - |r|..]
    ensures r == [] || !IsJsonSpace(r[0])
    ensures forall i :: 0 <= i < |s| - |r| ==> IsJsonSpace(s[i])
  {
    if s != [] && IsJsonSpace(s[0]) then SkipSpace(s[1..]) else s
  }

  predicate HasPrefix(s: string, p: string)
  {
    |p| <= |s| && s[..|p|] == p
  }

  /** The index after the run of ASCII digits that starts at index `i`. */
  function DigitsEnd(s: string, i: nat): (j: nat)
    requires i <= |s|
    decreases |s| - i
    ensures i <= j <= |s|
    ensures forall k :: i <= k < j ==> PyStr.IsDigit(s[k])
    ensures j < |s| ==> !PyStr.IsDigit(s[j])
  {
    if i < |s| && PyStr.IsDigit(s[i]) then DigitsEnd(s, i + 1) else i
  }

  /** A character that can start a number, and one that can end it. */
  predicate StartsNumber(c: char) { c == '-' || PyStr.IsDigit(c) || c == 'N' || c == 'I' }
  predicate EndsNumber(c: char) { PyStr.IsDigit(c) || c == 'N' || c == 'y' }

  /** The length of the number that starts `s`, 0 when none does: `NaN`,
      `Infinity`, `-Infinity`, or `-?(0|[1-9][0-9]*)(\.[0-9]+)?([eE][-+]?[0-9]+)?`
      matched greedily, a fraction or exponent without digits left unread. */
  function NumberLength(s: string): (n: nat)
    ensures n <= |s|
    ensures n > 0 ==> StartsNumber(s[0]) && EndsNumber(s[n - 1])
  {
    if s == [] then 0
    else if s[0] == 'N' then (if HasPrefix(s, "NaN") then 3 else 0)
    else if s[0] == 'I' then (if HasPrefix(s, "Infinity") then 8 else 0)
    else if s[0] == '-' then
      if HasPrefix(s, "-Infinity") then 9
      else
        var j := UnsignedEnd(s, 1);
        if j == 1 then 0 else j
    else UnsignedEnd(s, 0)
  }

  /** The index after the number without sign that starts at index `i`, or `i`
      when none does. */
  function UnsignedEnd(s: string, i: nat): (j: nat)
    requires i <= |s|
    ensures i <= j <= |s|
    ensures j > i ==> PyStr.IsDigit(s[i]) && PyStr.IsDigit(s[j - 1])
  {
    var a := IntegerEnd(s, i);
    if a == i then i else ExponentEnd(s, FractionEnd(s, a))
  }

  /** `0`, or a non-zero digit and the digits after it. */
  function IntegerEnd(s: string, i: nat): (j: nat)
    requires i <= |s|
    ensures i <= j <= |s|
    ensures j > i ==> PyStr.IsDigit(s[i]) && PyStr.IsDigit(s[j - 1])
  {
    if i == |s| then i
    else if s[i] == '0' then i + 1
    else if '1' <= s[i] <= '9' then DigitsEnd(s, i + 1)
    else i
  }

  /** A `.` and at least one digit, or nothing. */
  function FractionEnd(s: string, i: nat): (j: nat)
    requires i <= |s|
    ensures i <= j <= |s|
    ensures j > i ==> PyStr.IsDigit(s[j - 1])
  {
    if i + 1 < |s| && s[i] == '.' && PyStr.IsDigit(s[i + 1]) then DigitsEnd(s, i + 2) else i
  }

  /** An `e` or `E`, an optional sign and at least one digit, or nothing. */
  function ExponentEnd(s: string, i: nat): (j: nat)
    requires i <= |s|
    ensures i <= j <= |s|
    ensures j > i ==> PyStr.IsDigit(s[j - 1])
  {
    if i + 1 < |s| && (s[i] == 'e' || s[i] == 'E') then
      var m := if i + 2 < |s| && (s[i + 1] == '+' || s[i + 1] == '-') then i + 2 else i + 1;
      if PyStr.IsDigit(s[m]) then DigitsEnd(s, m + 1) else i
    else i
  }

  predicate IsHexDigit(c: char)
  {
    ('0' <= c <= '9') || ('a' <= c <= 'f') || ('A' <= c <= 'F')
  }

  function HexValue(c: char): (d: nat)
    requires IsHexDigit(c)
    ensures d < 16
  {
    if '0' <= c <= '9' then c as int - '0' as int
    else if 'a' <= c <= 'f' then c as int - 'a' as int + 10
    else c as int - 'A' as int + 10
  }

  /** Four hex digits start at index `i` of `e`. */
  predicate HexAt(e: string, i: nat)
  {
    i + 4 <= |e| && forall j :: i <= j < i + 4 ==> IsHexDigit(e[j])
  }

  /** The code unit written by the four hex digits at index `i`. */
  function Hex4(e: string, i: nat): (u: nat)
    requires HexAt(e, i)
    ensures u < 0x10000
  {
    4096 * HexValue(e[i]) + 256 * HexValue(e[i + 1]) + 16 * HexValue(e[i + 2]) + HexValue(e[i + 3])
  }

  /** The character a backslash escape denotes and how many characters after the
      backslash it takes; `e` starts right after the backslash. A `\uXXXX` high
      surrogate followed by a `\uXXXX` low surrogate makes one character. */
  function Unescape(e: string): (r: Option<(char, nat)>)
    ensures r.Some? ==> 1 <= r.value.1 <= |e|
  {
    if e == [] then None
    else if e[0] == '"' || e[0] == '\\' || e[0] == '/' then Some((e[0], 1))
    else if e[0] == 'b' then Some((8 as char, 1))
    else if e[0] == 'f' then Some((12 as char, 1))
    else if e[0] == 'n' then Some(('\n', 1))
    else if e[0] == 'r' then Some(('\r', 1))
    else if e[0] == 't' then Some(('\t', 1))
    else if e[0] == 'u' && HexAt(e, 1) then
      var hi := Hex4(e, 1);
      if 0xD800 <= hi <= 0xDBFF && |e| >= 11 && e[5] == '\\' && e[6] == 'u' && HexAt(e, 7)
         && 0xDC00 <= Hex4(e, 7) <= 0xDFFF
      then Some(((0x10000 + (hi - 0xD800) * 0x400 + (Hex4(e, 7) - 0xDC00)) as char, 11))
      else if 0xD800 <= hi <= 0xDFFF then None
      else Some((hi as char, 5))
    else None
  }

  // ---------------------------------------------------------------------------
  // The scanner: each parser takes the text that follows what has been read
  // and returns the value with the text left after it.
  // ---------------------------------------------------------------------------

  /** The characters of a string literal up to its closing quote; `s` starts
      right after the opening quote. Raw control characters are refused. */
  function ParseString(s: string): (r: Option<(string, string)>)
    ensures r.Some? ==> |r.value.1| < |s|
  {
    if s == [] then None
    else if s[0] == '"' then Some(([], s[1..]))
    else if s[0] == '\\' then
      match Unescape(s[1..])
      case None => None
      case Some((c, n)) =>
        match ParseString(s[1 + n..])
        case None => None
        case Some((text, rest)) => Some(([c] + text, rest))
    else if s[0] as int < 0x20 then None
    else
      match ParseString(s[1..])
      case None => None
      case Some((text, rest)) => Some(([s[0]] + text, rest))
  }

  /** One JSON value at the very start of `s` (no whitespace skipped before
      it), chosen by its first character. */
  function ParseValue(s: string): (r: Option<(Json, string)>)
    decreases |s|, 0
    ensures r.Some? ==> |r.value.1| < |s|
  {
    if s == [] then None
    else if s[0] == '"' then
      match ParseString(s[1..])
      case None => None
      case Some((text, rest)) => Some((Str(text), rest))
    else if s[0] == '{' then ParseObject(SkipSpace(s[1..]))
    else if s[0] == '[' then ParseArray(SkipSpace(s[1..]))
    else if s[0] == 'n' then (if HasPrefix(s, "null") then Some((Null, s[4..])) else None)
    else if s[0] == 't' then (if HasPrefix(s, "true") then Some((Bool(true), s[4..])) else None)
    else if s[0] == 'f' then (if HasPrefix(s, "false") then Some((Bool(false), s[5..])) else None)
    else ParseNumber(s)
  }

  /** The most digits `int()` converts from text: the default of
      `sys.get_int_max_str_digits()` from Python 3.11 on. */
  const MaxIntDigits: nat := 4300

  /** A number lexeme without fraction, exponent or name: a sign and digits. */
  predicate IsIntegerLexeme(x: string)
  {
    forall i :: 0 <= i < |x| ==> x[i] == '-' || PyStr.IsDigit(x[i])
  }

  /** An integer lexeme the scanner cannot turn into an `int`: it has more
      digits, the sign not counted, than `int()` accepts. */
  predicate IntegerTooLong(x: string)
  {
    IsIntegerLexeme(x) && |x| - (if x != [] && x[0] == '-' then 1 else 0) > MaxIntDigits
  }

  /** A number at the start of `s`, kept as the text it is written as. An
      integer with too many digits fails too: `int()` raises a `ValueError`
      there, which ends `json.loads` like a syntax error does. */
  function ParseNumber(s: string): (r: Option<(Json, string)>)
    ensures r.Some? ==> |r.value.1| < |s|
  {
    var n := NumberLength(s);
    if n == 0 || IntegerTooLong(s[..n]) then None else Some((Num(s[..n]), s[n..]))
  }

  /** An array after its `[` and the whitespace that follows it. */
  function ParseArray(s: string): (r: Option<(Json, string)>)
    decreases |s|, 2
    ensures r.Some? ==> |r.value.1| < |s|
  {
    if s != [] && s[0] == ']' then Some((Arr([]), s[1..]))
    else
      match ParseElements(s)
      case None => None
      case Some((items, rest)) => Some((Arr(items), rest))
  }

  /** The elements of a non-empty array and its closing `]`. */
  function ParseElements(s: string): (r: Option<(seq<Json>, string)>)
    decreases |s|, 1
    ensures r.Some? ==> |r.value.1| < |s|
  {
    match ParseValue(s)
    case None => None
    case Some((v, rest)) =>
      var t := SkipSpace(rest);
      if t != [] && t[0] == ']' then Some(([v], t[1..]))
      else if t != [] && t[0] == ',' then
        match ParseElements(SkipSpace(t[1..]))
        case None => None
        case Some((vs, rest')) => Some(([v] + vs, rest'))
      else None
  }

  /** An object after its `{` and the whitespace that follows it. */
  function ParseObject(s: string): (r: Option<(Json, string)>)
    decreases |s|, 2
    ensures r.Some? ==> |r.value.1| < |s|
  {
    if s != [] && s[0] == '}' then Some((Obj([]), s[1..]))
    else
      match ParseMembers(s, [])
      case None => None
      case Some((ms, rest)) => Some((Obj(ms), rest))
  }

  /** One `key: value` pair at the start of `s`: the key, the value and the
      text after the value. */
  function ParseMember(s: string): (r: Option<(string, Json, string)>)
    decreases |s|, 0
    ensures r.Some? ==> |r.value.2| < |s|
  {
    if s == [] || s[0] != '"' then None
    else
      match ParseString(s[1..])
      case None => None
      case Some((key, afterKey)) =>
        var t := SkipSpace(afterKey);
        if t == [] || t[0] != ':' then None
        else
          match ParseValue(SkipSpace(t[1..]))
          case None => None
          case Some((v, rest)) => Some((key, v, rest))
  }

  /** The members of a non-empty object and its closing `}`, each stored into
      the dict `acc` read so far. */
  function ParseMembers(s: string, acc: seq<Member>): (r: Option<(seq<Member>, string)>)
    decreases |s|, 1
    ensures r.Some? ==> |r.value.1| < |s|
  {
    match ParseMember(s)
    case None => None
    case Some((key, v, rest)) =>
      var acc' := Set(acc, key, v);
      var u := SkipSpace(rest);
      if u != [] && u[0] == '}' then Some((acc', u[1..]))
      else if u != [] && u[0] == ',' then ParseMembers(SkipSpace(u[1..]), acc')
      else None
  }

  /** `json.loads(text)`: `None` where Python raises `JSONDecodeError`, or the
      `ValueError` of an integer with too many digits. A byte
      order mark is refused, whitespace around the one value is allowed, and
      anything else after it is refused. */
  function Decode(text: string): (r: Option<Json>)
  {
    if text != [] && text[0] as int == 0xFEFF then None
    else
      match ParseValue(SkipSpace(text))
      case None => None
      case Some((v, rest)) => if SkipSpace(rest) == [] then Some(v) else None
  }

  /** An integer with more digits than `int()` converts is refused: the scanner
      reads it whole and then cannot turn it into a number. */
  lemma LongIntegerRefused(x: string)
    requires NumberLength(x) == |x| && IntegerTooLong(x)
    ensures Decode(x) == None
  {
    assert x[0] == '-' || PyStr.IsDigit(x[0]);
    assert SkipSpace(x) == x;
    assert x[0] != '"' && x[0] != '{' && x[0] != '[' && x[0] != 'n' && x[0] != 't' && x[0] != 'f';
    assert x[..|x|] == x;
  }

  /** An integer lexeme has no whitespace to strip. */
  lemma IntegerUnspaced(x: string)
    requires IsIntegerLexeme(x)
    ensures PyStr.Strip(x) == x
  {
    if x != [] {
      assert x[0] == '-' || PyStr.IsDigit(x[0]);
      assert x[|x| - 1] == '-' || PyStr.IsDigit(x[|x| - 1]);
    }
    PyStr.StripUnspaced(x);
  }

  /** Text made of JSON whitespace only, the empty text among it, holds no value. */
  lemma DecodeBlank(text: string)
    requires forall i :: 0 <= i < |text| ==> IsJsonSpace(text[i])
    ensures Decode(text) == None
  {
    assert SkipSpace(text) == [];
  }
}
