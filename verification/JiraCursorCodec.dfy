/** The text form of a cursor: a flat JSON array. Writing follows JSON.stringify, reading follows the grammar
    of section 7 of RFC 8259 for arrays of null, strings and natural numbers written without whitespace. */
module JiraCursorCodec {
  import opened Wrappers
  import opened JiraKeys

  datatype Cursor =
    | Issues(token: Option<string>)
    | Links(token: Option<string>, issueKey: Option<string>, offset: nat)
    | Changelog(token: Option<string>, issueKey: Option<string>, historyOffset: nat, itemOffset: nat)
    | Sprints(boardIndex: nat, startAt: nat)

  datatype Error = InvalidInput | InvalidResponse | PermissionDenied | ClientFailure

  datatype Json = Null | Str(text: string) | Num(value: nat)

  // ---------- writing ----------

  function HexDigit(n: nat): char
    requires n < 16
  {
    if n < 10 then '0' + n as char else 'a' + (n - 10) as char
  }

  function EscapeChar(c: char): string {
    if c == '\"' then "\\\""
    else if c == '\\' then "\\\\"
    else if c == 8 as char then "\\b"
    else if c == 9 as char then "\\t"
    else if c == 10 as char then "\\n"
    else if c == 12 as char then "\\f"
    else if c == 13 as char then "\\r"
    else if c < ' ' then "\\u00" + [HexDigit(c as nat / 16), HexDigit(c as nat % 16)]
    else [c]
  }

  function Escape(s: string): string {
    if s == "" then "" else EscapeChar(s[0]) + Escape(s[1..])
  }

  function Digits(n: nat): string {
    if n < 10 then ['0' + n as char] else Digits(n / 10) + ['0' + (n % 10) as char]
  }

  function Write(v: Json): string {
    match v
    case Null => "null"
    case Str(text) => "\"" + Escape(text) + "\""
    case Num(value) => Digits(value)
  }

  function WriteRest(vs: seq<Json>): string
    requires vs != []
  {
    Write(vs[0]) + (if |vs| == 1 then "]" else "," + WriteRest(vs[1..]))
  }

  function WriteArray(vs: seq<Json>): string
    requires vs != []
  {
    "[" + WriteRest(vs)
  }

  // ---------- reading ----------

  function HexValue(c: char): Option<nat> {
    if Digit(c) then Some((c - '0') as nat)
    else if 'a' <= c <= 'f' then Some((c - 'a') as nat + 10)
    else if 'A' <= c <= 'F' then Some((c - 'A') as nat + 10)
    else None
  }

  /** The character of four hexadecimal digits, unless it is half of a surrogate pair. */
  function FromHex(a: char, b: char, c: char, d: char): Option<char> {
    var w, x, y, z := HexValue(a), HexValue(b), HexValue(c), HexValue(d);
    if w.None? || x.None? || y.None? || z.None? then None
    else
      var code := w.value * 4096 + x.value * 256 + y.value * 16 + z.value;
      if code < 0xD800 || 0xE000 <= code < 0x10000 then Some(code as char) else None
  }

  function Unescape(c: char): Option<char> {
    if c == '\"' || c == '\\' || c == '/' then Some(c)
    else if c == 'b' then Some(8 as char)
    else if c == 't' then Some(9 as char)
    else if c == 'n' then Some(10 as char)
    else if c == 'f' then Some(12 as char)
    else if c == 'r' then Some(13 as char)
    else None
  }

  /** One character of a string literal and what follows it. */
  function ReadChar(s: string): Option<(char, string)>
    ensures ReadChar(s).Some? ==> |ReadChar(s).value.1| < |s|
  {
    if s == "" || s[0] < ' ' || s[0] == '\"' then None
    else if s[0] != '\\' then Some((s[0], s[1..]))
    else if |s| >= 6 && s[1] == 'u' then
      var c := FromHex(s[2], s[3], s[4], s[5]);
      if c.Some? then Some((c.value, s[6..])) else None
    else if |s| >= 2 && Unescape(s[1]).Some? then Some((Unescape(s[1]).value, s[2..]))
    else None
  }

  function ReadString(s: string): Option<(string, string)>
    decreases |s|
  {
    if s != "" && s[0] == '\"' then Some(("", s[1..]))
    else
      var c := ReadChar(s);
      if c.None? then None
      else
        var rest := ReadString(c.value.1);
        if rest.None? then None else Some(([c.value.0] + rest.value.0, rest.value.1))
  }

  function ReadDigits(s: string, acc: nat): (nat, string) {
    if s == "" || !Digit(s[0]) then (acc, s) else ReadDigits(s[1..], acc * 10 + (s[0] - '0') as nat)
  }

  function Read(s: string): Option<(Json, string)> {
    if s == "" then None
    else if "null" <= s then Some((Null, s[4..]))
    else if s[0] == '\"' then
      var r := ReadString(s[1..]);
      if r.None? then None else Some((Str(r.value.0), r.value.1))
    else if !Digit(s[0]) || (s[0] == '0' && |s| > 1 && Digit(s[1])) then None
    else
      var r := ReadDigits(s, 0);
      Some((Num(r.0), r.1))
  }

  function ReadRest(s: string, fuel: nat): Option<seq<Json>>
    decreases fuel
  {
    var v := Read(s);
    if v.None? || fuel == 0 then None
    else
      var t := v.value.1;
      if t == "]" then Some([v.value.0])
      else if t == "" || t[0] != ',' then None
      else
        var rest := ReadRest(t[1..], fuel - 1);
        if rest.None? then None else Some([v.value.0] + rest.value)
  }

  /** Every element takes at least one character, so the length of the text bounds the number of elements. */
  function ReadArray(s: string): Option<seq<Json>> {
    if s == "" || s[0] != '[' then None else ReadRest(s[1..], |s|)
  }

  // ---------- cursors ----------

  function TokenJson(token: Option<string>): Json { if token.None? then Null else Str(token.value) }

  function Tuple(c: Cursor): seq<Json> {
    match c
    case Issues(t) => [Str("j1"), Str("i"), TokenJson(t)]
    case Links(t, k, o) => [Str("j1"), Str("l"), TokenJson(t), TokenJson(k), Num(o)]
    case Changelog(t, k, h, o) => [Str("j1"), Str("h"), TokenJson(t), TokenJson(k), Num(h), Num(o)]
    case Sprints(b, s) => [Str("j1"), Str("s"), Num(b), Num(s)]
  }

  function Text(c: Cursor): string { WriteArray(Tuple(c)) }

  /** The length of a string as the source's language counts it, in UTF-16 code units. */
  function Units(s: string): nat {
    if s == "" then 0 else UnitsOf(s[0]) + Units(s[1..])
  }

  function UnitsOf(c: char): nat { if c as int < 0x1_0000 then 1 else 2 }

  const LIMIT: nat := 2048

  function Encode(c: Cursor): Result<string, Error> {
    if Units(Text(c)) > LIMIT then Err(InvalidResponse) else Ok(Text(c))
  }

  predicate Bounded(s: string, max: nat) {
    s != "" && Units(s) <= max && forall c :: c in s ==> c != 0 as char
  }

  predicate TokenAccepted(v: Json) { v.Null? || (v.Str? && Bounded(v.text, LIMIT)) }

  predicate OffsetAccepted(v: Json) { v.Num? && v.value <= 1_000_000 }

  /** No key is accepted only together with offsets that are all zero. */
  predicate KeyAccepted(v: Json, atStart: bool) {
    if v.Null? then atStart else v.Str? && IsIssueKey(v.text)
  }

  function TokenOf(v: Json): Option<string> { if v.Str? then Some(v.text) else None }

  function FromTuple(vs: seq<Json>): Result<Cursor, Error> {
    if vs == [] || vs[0] != Str("j1") then Err(InvalidResponse)
    else if |vs| == 3 && vs[1] == Str("i") then
      if TokenAccepted(vs[2]) then Ok(Issues(TokenOf(vs[2]))) else Err(InvalidResponse)
    else if |vs| == 5 && vs[1] == Str("l") && KeyAccepted(vs[3], vs[4] == Num(0)) && OffsetAccepted(vs[4]) then
      if TokenAccepted(vs[2]) then Ok(Links(TokenOf(vs[2]), TokenOf(vs[3]), vs[4].value)) else Err(InvalidResponse)
    else if |vs| == 6 && vs[1] == Str("h") && KeyAccepted(vs[3], vs[4] == vs[5] == Num(0))
            && OffsetAccepted(vs[4]) && OffsetAccepted(vs[5]) then
      if TokenAccepted(vs[2]) then Ok(Changelog(TokenOf(vs[2]), TokenOf(vs[3]), vs[4].value, vs[5].value))
      else Err(InvalidResponse)
    else if |vs| == 4 && vs[1] == Str("s") && OffsetAccepted(vs[2]) && OffsetAccepted(vs[3]) then
      Ok(Sprints(vs[2].value, vs[3].value))
    else Err(InvalidResponse)
  }

  const PREFIX := "[\"j1\","

  /** A cursor read back: null is the start, text without the prefix a token handed out before cursors had phases. */
  function Decode(input: Option<string>): Result<Cursor, Error> {
    if input.None? then Ok(Issues(None))
    else if !(PREFIX <= input.value) then
      if Bounded(input.value, LIMIT) then Ok(Issues(input)) else Err(InvalidResponse)
    else
      var vs := ReadArray(input.value);
      if vs.None? then Err(InvalidResponse) else FromTuple(vs.value)
  }

  // ---------- reading what was written ----------

  lemma ReadCharEscaped(c: char, rest: string)
    ensures ReadChar(EscapeChar(c) + rest) == Some((c, rest))
  {
    var s := EscapeChar(c) + rest;
    if c < ' ' && c !in [8 as char, 9 as char, 10 as char, 12 as char, 13 as char] {
      var hi, lo := c as nat / 16, c as nat % 16;
      assert HexValue(HexDigit(hi)) == Some(hi) && HexValue(HexDigit(lo)) == Some(lo);
      assert s[6..] == rest;
    } else if |EscapeChar(c)| == 2 {
      assert s[2..] == rest;
    } else {
      assert s[1..] == rest;
    }
  }

  lemma {:induction false} ReadStringEscaped(s: string, rest: string)
    ensures ReadString(Escape(s) + "\"" + rest) == Some((s, rest))
  {
    if s == "" {
      assert (Escape(s) + "\"" + rest)[1..] == rest;
    } else {
      var tail := Escape(s[1..]) + "\"" + rest;
      assert Escape(s) + "\"" + rest == EscapeChar(s[0]) + tail;
      ReadCharEscaped(s[0], tail);
      ReadStringEscaped(s[1..], rest);
      assert EscapeChar(s[0])[0] != '\"';
      assert (EscapeChar(s[0]) + tail)[0] == EscapeChar(s[0])[0];
      assert [s[0]] + s[1..] == s;
    }
  }

  lemma {:induction false} ReadDigitsWritten(n: nat, rest: string)
    ensures ReadDigits(Digits(n) + rest, 0) == ReadDigits(rest, n)
    ensures Digits(n) != "" && Digit(Digits(n)[0]) && (Digits(n)[0] == '0' ==> n == 0)
  {
    var d := '0' + (n % 10) as char;
    assert ([d] + rest)[1..] == rest;
    if n >= 10 {
      assert Digits(n) + rest == Digits(n / 10) + ([d] + rest);
      ReadDigitsWritten(n / 10, [d] + rest);
    }
  }

  lemma ReadText(text: string, rest: string)
    ensures Read(Write(Str(text)) + rest) == Some((Str(text), rest))
  {
    var s := Write(Str(text)) + rest;
    assert s[0] == '\"' && s[1..] == Escape(text) + "\"" + rest;
    ReadStringEscaped(text, rest);
    hide Escape, ReadString;
  }

  lemma ReadNumber(n: nat, rest: string)
    requires rest != "" && !Digit(rest[0])
    ensures Read(Write(Num(n)) + rest) == Some((Num(n), rest))
  {
    var s := Write(Num(n)) + rest;
    ReadDigitsWritten(n, rest);
    assert s[0] == Digits(n)[0];
    assert ReadDigits(rest, n) == (n, rest);
    assert n == 0 ==> s[1] == rest[0];
    hide Digits, ReadDigits;
  }

  lemma ReadWritten(v: Json, rest: string)
    requires rest != "" && (rest[0] == ',' || rest[0] == ']')
    ensures Read(Write(v) + rest) == Some((v, rest))
  {
    hide Escape, Digits, ReadString, ReadDigits;
    match v {
      case Null =>
        var s := Write(v) + rest;
        assert s[..4] == "null" && s[4..] == rest;
      case Str(text) => ReadText(text, rest);
      case Num(n) => ReadNumber(n, rest);
    }
  }

  lemma {:induction false} ReadRestWritten(vs: seq<Json>, fuel: nat)
    requires vs != [] && fuel >= |vs|
    ensures ReadRest(WriteRest(vs), fuel) == Some(vs)
  {
    if |vs| == 1 {
      ReadWritten(vs[0], "]");
      assert vs == [vs[0]];
    } else {
      var tail := "," + WriteRest(vs[1..]);
      ReadWritten(vs[0], tail);
      assert tail[1..] == WriteRest(vs[1..]);
      ReadRestWritten(vs[1..], fuel - 1);
      assert vs == [vs[0]] + vs[1..];
    }
  }

  lemma {:induction false} WriteRestLong(vs: seq<Json>)
    requires vs != []
    ensures |WriteRest(vs)| >= |vs|
  {
    if |vs| > 1 {
      WriteRestLong(vs[1..]);
    }
  }

  /** Every array of values that is written is read back. */
  lemma ReadArrayWritten(vs: seq<Json>)
    requires vs != []
    ensures ReadArray(WriteArray(vs)) == Some(vs)
  {
    assert WriteArray(vs)[1..] == WriteRest(vs);
    WriteRestLong(vs);
    ReadRestWritten(vs, |WriteArray(vs)|);
  }

  lemma TupleInjective(c: Cursor, d: Cursor)
    requires Tuple(c) == Tuple(d)
    ensures c == d
  {
    var u, v := Tuple(c), Tuple(d);
    assert u[1] == v[1] && u[2] == v[2] && (|u| > 3 ==> u[3] == v[3]);
    assert |u| > 4 ==> u[4] == v[4];
    assert |u| > 5 ==> u[5] == v[5];
    assert (Str("i") == Str("l") || Str("l") == Str("h") || Str("h") == Str("s") || Str("s") == Str("i")) ==> false by {
      assert "i"[0] != "l"[0] && "l"[0] != "h"[0] && "h"[0] != "s"[0] && "s"[0] != "i"[0];
    }
  }

  /** Different cursors have different texts. */
  lemma TextInjective(c: Cursor, d: Cursor)
    requires Text(c) == Text(d)
    ensures c == d
  {
    hide Write, WriteArray, ReadArray;
    ReadArrayWritten(Tuple(c));
    ReadArrayWritten(Tuple(d));
    TupleInjective(c, d);
  }

  lemma VersionWritten()
    ensures Write(Str("j1")) == "\"j1\""
  {
    assert "j1"[1..] == "1" && "1"[1..] == "";
    assert Escape("1") == "1";
  }

  lemma VersionFirst(vs: seq<Json>)
    requires |vs| > 1 && vs[0] == Str("j1")
    ensures PREFIX <= WriteArray(vs)
  {
    VersionWritten();
    hide Write;
    var tail := WriteRest(vs[1..]);
    hide WriteRest;
    assert "[" + ("\"j1\"" + ("," + tail)) == PREFIX + tail;
  }

  /** No cursor's text is taken for a token without phases. */
  lemma NeverLegacy(c: Cursor)
    ensures PREFIX <= Text(c)
  {
    hide WriteArray;
    VersionFirst(Tuple(c));
  }

  /** What the reader asks of a cursor. */
  predicate Fits(c: Cursor) {
    match c
    case Issues(t) => TokenFits(t)
    case Links(t, k, o) => TokenFits(t) && KeyFits(k, o == 0) && o <= 1_000_000
    case Changelog(t, k, h, o) => TokenFits(t) && KeyFits(k, h == o == 0) && h <= 1_000_000 && o <= 1_000_000
    case Sprints(b, s) => b <= 1_000_000 && s <= 1_000_000
  }

  predicate TokenFits(t: Option<string>) { t.Some? ==> Bounded(t.value, LIMIT) }

  predicate KeyFits(k: Option<string>, atStart: bool) {
    if k.None? then atStart else IsIssueKey(k.value)
  }

  lemma TupleRoundTrip(c: Cursor)
    ensures FromTuple(Tuple(c)) == (if Fits(c) then Ok(c) else Err(InvalidResponse))
  {
    hide IsIssueKey, Bounded;
    assert "i"[0] == 'i' && "l"[0] == 'l' && "h"[0] == 'h' && "s"[0] == 's';
    match c {
      case Issues(t) =>
      case Links(t, k, o) =>
      case Changelog(t, k, h, o) =>
      case Sprints(b, s) =>
    }
  }

  /** The text of a cursor is read back as the cursor, or refused. */
  lemma DecodeText(c: Cursor)
    ensures Decode(Some(Text(c))) == (if Fits(c) then Ok(c) else Err(InvalidResponse))
  {
    NeverLegacy(c);
    ReadArrayWritten(Tuple(c));
    TupleRoundTrip(c);
    hide ReadArray, WriteArray, FromTuple, Fits, Tuple;
  }

  // ---------- how long the text is ----------

  function EscapedUnits(s: string): nat {
    if s == "" then 0
    else
      (if s[0] in "\"\\" || s[0] as int in {8, 9, 10, 12, 13} then 2 else if s[0] < ' ' then 6 else UnitsOf(s[0]))
      + EscapedUnits(s[1..])
  }

  function DigitCount(n: nat): nat { if n < 10 then 1 else DigitCount(n / 10) + 1 }

  function TokenSize(t: Option<string>): nat { if t.None? then 4 else EscapedUnits(t.value) + 2 }

  /** The length of a cursor's text, from its token, its key and its offsets. */
  function TextSize(c: Cursor): nat {
    match c
    case Issues(t) => 11 + TokenSize(t)
    case Links(t, k, o) => 13 + TokenSize(t) + TokenSize(k) + DigitCount(o)
    case Changelog(t, k, h, o) => 14 + TokenSize(t) + TokenSize(k) + DigitCount(h) + DigitCount(o)
    case Sprints(b, s) => 12 + DigitCount(b) + DigitCount(s)
  }

  predicate Ascii(s: string) { forall i :: 0 <= i < |s| ==> s[i] as int < 0x80 }

  lemma {:induction false} UnitsAscii(s: string)
    requires Ascii(s)
    ensures Units(s) == |s|
  {
    if s != "" {
      UnitsAscii(s[1..]);
    }
  }

  lemma {:induction false} UnitsAppend(s: string, t: string)
    ensures Units(s + t) == Units(s) + Units(t)
  {
    if s == "" {
      assert s + t == t;
    } else {
      assert (s + t)[0] == s[0] && (s + t)[1..] == s[1..] + t;
      UnitsAppend(s[1..], t);
    }
  }

  lemma EscapeCharUnits(c: char)
    ensures Units(EscapeChar(c))
         == (if c in "\"\\" || c as int in {8, 9, 10, 12, 13} then 2 else if c < ' ' then 6 else UnitsOf(c))
    ensures forall d :: d in EscapeChar(c) ==> d >= ' '
  {
    if |EscapeChar(c)| > 1 {
      UnitsAscii(EscapeChar(c));
    } else {
      assert EscapeChar(c) == [c];
    }
  }

  lemma {:induction false} EscapeUnits(s: string)
    ensures Units(Escape(s)) == EscapedUnits(s)
    ensures forall d :: d in Escape(s) ==> d >= ' '
  {
    if s != "" {
      EscapeCharUnits(s[0]);
      EscapeUnits(s[1..]);
      UnitsAppend(EscapeChar(s[0]), Escape(s[1..]));
    }
  }

  lemma {:induction false} DigitsUnits(n: nat)
    ensures Ascii(Digits(n)) && Units(Digits(n)) == DigitCount(n)
    ensures forall d :: d in Digits(n) ==> d >= ' '
  {
    var d := ['0' + (n % 10) as char];
    assert Units(d) == 1;
    if n >= 10 {
      DigitsUnits(n / 10);
      UnitsAppend(Digits(n / 10), d);
    }
  }

  function ValueSize(v: Json): nat {
    match v
    case Null => 4
    case Str(text) => EscapedUnits(text) + 2
    case Num(value) => DigitCount(value)
  }

  lemma WriteUnits(v: Json)
    ensures Units(Write(v)) == ValueSize(v)
    ensures forall d :: d in Write(v) ==> d >= ' '
  {
    match v
    case Null => UnitsAscii("null");
    case Str(text) =>
      EscapeUnits(text);
      UnitsAscii("\"");
      UnitsAppend("\"", Escape(text));
      UnitsAppend("\"" + Escape(text), "\"");
    case Num(n) => DigitsUnits(n);
  }

  function RestSize(vs: seq<Json>): nat {
    if vs == [] then 0 else ValueSize(vs[0]) + 1 + RestSize(vs[1..])
  }

  lemma {:induction false} WriteRestUnits(vs: seq<Json>)
    requires vs != []
    ensures Units(WriteRest(vs)) == RestSize(vs)
    ensures forall d :: d in WriteRest(vs) ==> d >= ' '
  {
    WriteUnits(vs[0]);
    hide Write, ValueSize;
    if |vs| == 1 {
      UnitsAscii("]");
      UnitsAppend(Write(vs[0]), "]");
      assert RestSize(vs[1..]) == 0;
    } else {
      WriteRestUnits(vs[1..]);
      UnitsAscii(",");
      UnitsAppend(",", WriteRest(vs[1..]));
      UnitsAppend(Write(vs[0]), "," + WriteRest(vs[1..]));
    }
  }

  lemma NameSize(name: string)
    requires |name| == 1 && 'a' <= name[0] <= 'z'
    ensures ValueSize(Str(name)) == 3 && ValueSize(Str("j1")) == 4
  {
    assert name[1..] == "" && "j1"[1..] == "1" && "1"[1..] == "";
    assert EscapedUnits("1") == 1;
  }

  lemma RestFirst(v: Json, vs: seq<Json>)
    ensures RestSize([v] + vs) == ValueSize(v) + 1 + RestSize(vs)
  {
    assert ([v] + vs)[1..] == vs;
  }

  lemma RestThree(a: Json, b: Json, c: Json)
    ensures RestSize([a, b, c]) == ValueSize(a) + ValueSize(b) + ValueSize(c) + 3
  {
    assert [a, b, c] == [a] + ([b] + ([c] + []));
    RestFirst(c, []);
    RestFirst(b, [c] + []);
    RestFirst(a, [b] + ([c] + []));
  }

  lemma TupleSize(c: Cursor)
    ensures RestSize(Tuple(c)) + 1 == TextSize(c)
  {
    var u := Tuple(c);
    NameSize(u[1].text);
    hide RestSize;
    match c {
      case Issues(_) => RestThree(u[0], u[1], u[2]);
      case Links(_, _, _) =>
        assert u == [u[0]] + ([u[1]] + [u[2], u[3], u[4]]);
        RestFirst(u[0], [u[1]] + [u[2], u[3], u[4]]);
        RestFirst(u[1], [u[2], u[3], u[4]]);
        RestThree(u[2], u[3], u[4]);
      case Changelog(_, _, _, _) =>
        assert u == [u[0]] + ([u[1]] + ([u[2]] + [u[3], u[4], u[5]]));
        RestFirst(u[0], [u[1]] + ([u[2]] + [u[3], u[4], u[5]]));
        RestFirst(u[1], [u[2]] + [u[3], u[4], u[5]]);
        RestFirst(u[2], [u[3], u[4], u[5]]);
        RestThree(u[3], u[4], u[5]);
      case Sprints(_, _) =>
        assert u == [u[0]] + [u[1], u[2], u[3]];
        RestFirst(u[0], [u[1], u[2], u[3]]);
        RestThree(u[1], u[2], u[3]);
    }
  }

  lemma TextUnits(c: Cursor)
    ensures Units(Text(c)) == TextSize(c)
    ensures forall d :: d in Text(c) ==> d >= ' '
  {
    WriteRestUnits(Tuple(c));
    TupleSize(c);
    UnitsAscii("[");
    UnitsAppend("[", WriteRest(Tuple(c)));
    hide WriteRest, TextSize, Tuple, RestSize, Units;
  }

  /** A cursor can be written exactly if its token, key and offsets are short enough; written, it survives being
      read exactly when it fits: its token is a bounded string without NUL, its key an issue key, its offsets
      at most a million, and zero where there is no key. */
  lemma RoundTrip(c: Cursor)
    ensures Encode(c).Ok? <==> TextSize(c) <= LIMIT
    ensures Encode(c).Ok? ==> (Decode(Some(Encode(c).value)) == Ok(c) <==> Fits(c))
  {
    TextUnits(c);
    DecodeText(c);
    hide Text, Decode, Fits, TextSize;
  }

  /** The cursor can be written, and what was written can be read. */
  predicate Carries(c: Cursor) { TextSize(c) <= LIMIT && Fits(c) }
}
