/**
 Canonical JSON (scripts/inFlightInventory.ts): `JSON.stringify` with object keys sorted at every level.

 Strings follow section 7 of RFC 8259 as `JSON.stringify` prints them; numbers are the integers the manifests
 contain; keys are ordered as in section 3.2.3 of RFC 8785.
 */
module Json {
  import opened Numbers = Num
  import opened Text
  import opened Lists
  import opened Sorting

  datatype Json =
    | Null
    | Bool(b: bool)
    | Num(n: int)
    | Str(s: string)
    | Arr(items: seq<Json>)
    | Obj(fields: seq<Keyed<Json>>)

  // ---------- printing ----------

  function HexDigit(n: nat): char
    requires n < 16
  {
    if n < 10 then DigitOf(n) else 'a' + (n - 10) as char
  }

  function EscapeChar(c: char): string {
    if c == '\"' then "\\\""
    else if c == '\\' then "\\\\"
    else if c == 8 as char then "\\b"
    else if c == 12 as char then "\\f"
    else if c == '\n' then "\\n"
    else if c == '\r' then "\\r"
    else if c == '\t' then "\\t"
    else if c < ' ' then "\\u00" + [HexDigit(c as int / 16), HexDigit(c as int % 16)]
    else [c]
  }

  function Escape(s: string): string {
    if s == [] then [] else EscapeChar(s[0]) + Escape(s[1..])
  }

  function Quote(s: string): string {
    "\"" + (Escape(s) + "\"")
  }

  /** Prints a value with its fields in the order given. */
  function Print(v: Json): string
    decreases v, 1
  {
    match v
    case Null => "null"
    case Bool(b) => if b then "true" else "false"
    case Num(n) => IntToString(n)
    case Str(s) => Quote(s)
    case Arr(items) => "[" + PrintBody(items)
    case Obj(fields) => "{" + PrintFieldBody(fields)
  }

  /** An array after its opening bracket. */
  function PrintBody(items: seq<Json>): string
    decreases items, 1
  {
    if items == [] then "]" else Print(items[0]) + PrintItems(items[1..])
  }

  function PrintFieldBody(fields: seq<Keyed<Json>>): string
    decreases fields, 1
  {
    if fields == [] then "}" else PrintField(fields[0]) + PrintFields(fields[1..])
  }

  /** The rest of an array after its first item, closing bracket included. */
  function PrintItems(items: seq<Json>): string
    decreases items, 0
  {
    if items == [] then "]" else "," + (Print(items[0]) + PrintItems(items[1..]))
  }

  function PrintField(f: Keyed<Json>): string
    decreases f, 2
  {
    Quote(f.key) + (":" + Print(f.item))
  }

  function PrintFields(fields: seq<Keyed<Json>>): string
    decreases fields, 0
  {
    if fields == [] then "}" else "," + (PrintField(fields[0]) + PrintFields(fields[1..]))
  }

  /** Sorts the keys of every object in a value. */
  function SortKeys(v: Json): Json
    decreases v, 1
  {
    match v
    case Arr(items) => Arr(SortKeysItems(items))
    case Obj(fields) => Obj(Sort(SortKeysFields(fields)))
    case _ => v
  }

  function SortKeysItems(items: seq<Json>): (r: seq<Json>)
    ensures |r| == |items|
    ensures forall i :: 0 <= i < |items| ==> r[i] == SortKeys(items[i])
    decreases items, 0
  {
    if items == [] then [] else [SortKeys(items[0])] + SortKeysItems(items[1..])
  }

  function SortKeysFields(fields: seq<Keyed<Json>>): (r: seq<Keyed<Json>>)
    ensures |r| == |fields|
    ensures forall i :: 0 <= i < |fields| ==> r[i] == Keyed(fields[i].key, SortKeys(fields[i].item))
    decreases fields, 0
  {
    if fields == [] then [] else [Keyed(fields[0].key, SortKeys(fields[0].item))] + SortKeysFields(fields[1..])
  }

  function CanonicalJson(v: Json): string {
    Print(SortKeys(v))
  }

  // ---------- reading (RFC 8259, without insignificant white space) ----------

  /** The characters that a backslash may stand before, and what they mean. */
  function Unescaped(c: char): Option<char> {
    if c == '\"' then Some('\"')
    else if c == '\\' then Some('\\')
    else if c == '/' then Some('/')
    else if c == 'b' then Some(8 as char)
    else if c == 'f' then Some(12 as char)
    else if c == 'n' then Some('\n')
    else if c == 'r' then Some('\r')
    else if c == 't' then Some('\t')
    else None
  }

  /** Four hexadecimal digits that name a character. */
  function ReadHex(t: string): Option<char> {
    if |t| < 4 || HexValue(t[0]) > 15 || HexValue(t[1]) > 15 || HexValue(t[2]) > 15 || HexValue(t[3]) > 15 then None
    else
      var n := ((HexValue(t[0]) * 16 + HexValue(t[1])) * 16 + HexValue(t[2])) * 16 + HexValue(t[3]);
      if 0xD800 <= n < 0xE000 then None else Some(n as char)
  }

  function Prepend(c: char, r: Option<(string, string)>): (p: Option<(string, string)>)
    ensures p.Some? ==> r.Some? && p.value.1 == r.value.1
  {
    if r.None? then None else Some(([c] + r.value.0, r.value.1))
  }

  /** The characters of a string after its opening quote (section 7), and what follows its closing one. */
  function ReadChars(t: string): (r: Option<(string, string)>)
    ensures r.Some? ==> |r.value.1| < |t|
    decreases |t|
  {
    if t == [] || t[0] < ' ' then None
    else if t[0] == '\"' then Some(("", t[1..]))
    else if t[0] != '\\' then Prepend(t[0], ReadChars(t[1..]))
    else if |t| == 1 then None
    else if t[1] == 'u' then
      var c := ReadHex(t[2..]);
      if c.None? then None else Prepend(c.value, ReadChars(t[6..]))
    else
      var c := Unescaped(t[1]);
      if c.None? then None else Prepend(c.value, ReadChars(t[2..]))
  }

  /** The number of leading digits. */
  function DigitRun(t: string): (n: nat)
    ensures n <= |t| && AllDigits(t[..n])
  {
    if t == [] || !IsDigit(t[0]) then 0 else 1 + DigitRun(t[1..])
  }

  /** Digits without a superfluous zero in front (section 6). */
  function ReadNat(t: string): (r: Option<(nat, string)>)
    ensures r.Some? ==> |r.value.1| < |t|
  {
    var n := DigitRun(t);
    if n == 0 || (t[0] == '0' && n > 1) then None else Some((DigitsValue(t[..n]), t[n..]))
  }

  function ReadInt(t: string): (r: Option<(Json, string)>)
    ensures r.Some? ==> |r.value.1| < |t|
  {
    if t != [] && t[0] == '-' then
      var n := ReadNat(t[1..]);
      if n.None? then None else Some((Num(0 - n.value.0 as int), n.value.1))
    else
      var n := ReadNat(t);
      if n.None? then None else Some((Num(n.value.0), n.value.1))
  }

  /** One of the three literal names (section 3). */
  function ReadName(t: string): (r: Option<(Json, string)>)
    ensures r.Some? ==> |r.value.1| < |t|
  {
    if "null" <= t then Some((Null, t[4..]))
    else if "true" <= t then Some((Bool(true), t[4..]))
    else if "false" <= t then Some((Bool(false), t[5..]))
    else None
  }

  function ReadText(t: string): (r: Option<(Json, string)>)
    ensures r.Some? ==> |r.value.1| < |t|
    requires t != []
  {
    var s := ReadChars(t[1..]);
    if s.None? then None else Some((Str(s.value.0), s.value.1))
  }

  /** A value and what follows it. */
  function ReadValue(t: string): (r: Option<(Json, string)>)
    ensures r.Some? ==> |r.value.1| < |t|
    decreases |t|, 1
  {
    if t == [] then None
    else if t[0] == '\"' then ReadText(t)
    else if t[0] == '-' || IsDigit(t[0]) then ReadInt(t)
    else if t[0] == '[' then
      var items := if "]" <= t[1..] then Some(([], t[2..])) else ReadItems(t[1..]);
      if items.None? then None else Some((Arr(items.value.0), items.value.1))
    else if t[0] == '{' then
      var fields := if "}" <= t[1..] then Some(([], t[2..])) else ReadFields(t[1..]);
      if fields.None? then None else Some((Obj(fields.value.0), fields.value.1))
    else ReadName(t)
  }

  /** At least one item, and the closing bracket. */
  function ReadItems(t: string): (r: Option<(seq<Json>, string)>)
    ensures r.Some? ==> |r.value.1| < |t|
    decreases |t|, 2
  {
    var v := ReadValue(t);
    if v.None? || v.value.1 == [] then None
    else if v.value.1[0] == ']' then Some(([v.value.0], v.value.1[1..]))
    else if v.value.1[0] != ',' then None
    else
      var rest := ReadItems(v.value.1[1..]);
      if rest.None? then None else Some(([v.value.0] + rest.value.0, rest.value.1))
  }

  /** A key, a colon and a value. */
  function ReadField(t: string): (r: Option<(Keyed<Json>, string)>)
    ensures r.Some? ==> |r.value.1| < |t|
    decreases |t|, 2
  {
    if t == [] || t[0] != '\"' then None
    else
      var key := ReadChars(t[1..]);
      if key.None? || key.value.1 == [] || key.value.1[0] != ':' then None
      else
        var v := ReadValue(key.value.1[1..]);
        if v.None? then None else Some((Keyed(key.value.0, v.value.0), v.value.1))
  }

  /** At least one field, and the closing brace. */
  function ReadFields(t: string): (r: Option<(seq<Keyed<Json>>, string)>)
    ensures r.Some? ==> |r.value.1| < |t|
    decreases |t|, 3
  {
    var f := ReadField(t);
    if f.None? || f.value.1 == [] then None
    else if f.value.1[0] == '}' then Some(([f.value.0], f.value.1[1..]))
    else if f.value.1[0] != ',' then None
    else
      var rest := ReadFields(f.value.1[1..]);
      if rest.None? then None else Some(([f.value.0] + rest.value.0, rest.value.1))
  }

  // ---------- what is printed is read back ----------

  lemma Assoc(a: string, b: string, c: string)
    ensures (a + b) + c == a + (b + c)
  {
  }

  lemma HexRead(n: nat)
    requires n < 16
    ensures HexValue(HexDigit(n)) == n
  {
  }

  lemma PlainRead(c: char, r: string)
    requires c >= ' ' && c != '\"' && c != '\\'
    ensures ReadChars([c] + r) == Prepend(c, ReadChars(r))
  {
    assert ([c] + r)[1..] == r;
  }

  lemma ShortRead(d: char, c: char, r: string)
    requires d != 'u' && Unescaped(d) == Some(c)
    ensures ReadChars(['\\', d] + r) == Prepend(c, ReadChars(r))
  {
    var t := ['\\', d] + r;
    assert t[0] == '\\' && t[1] == d && t[2..] == r;
  }

  lemma HexEscapeRead(c: char, r: string)
    requires c < ' '
    ensures ReadChars(("\\u00" + [HexDigit(c as int / 16), HexDigit(c as int % 16)]) + r) == Prepend(c, ReadChars(r))
  {
    var t := ("\\u00" + [HexDigit(c as int / 16), HexDigit(c as int % 16)]) + r;
    HexRead(c as int / 16);
    HexRead(c as int % 16);
    assert t[0] == '\\' && t[1] == 'u' && t[6..] == r;
    assert t[2..][0] == '0' && t[2..][1] == '0' && t[2..][2] == HexDigit(c as int / 16)
           && t[2..][3] == HexDigit(c as int % 16);
    assert ReadHex(t[2..]) == Some((c as int) as char);
  }

  /** A character and its escape. */
  lemma EscapeRead(c: char, r: string)
    ensures ReadChars(EscapeChar(c) + r) == Prepend(c, ReadChars(r))
  {
    if c == '\"' || c == '\\' || c in [8 as char, 12 as char, '\n', '\r', '\t'] {
      ShortRead(EscapeChar(c)[1], c, r);
      assert EscapeChar(c) == ['\\', EscapeChar(c)[1]];
    } else if c < ' ' {
      HexEscapeRead(c, r);
    } else {
      PlainRead(c, r);
    }
  }

  lemma {:induction false} CharsRead(s: string, r: string)
    ensures ReadChars(Escape(s) + ("\"" + r)) == Some((s, r))
    decreases |s|
  {
    var q := "\"" + r;
    if s == [] {
      assert Escape(s) + q == q && q[1..] == r;
    } else {
      Assoc(EscapeChar(s[0]), Escape(s[1..]), q);
      EscapeRead(s[0], Escape(s[1..]) + q);
      CharsRead(s[1..], r);
      assert [s[0]] + s[1..] == s;
    }
  }

  lemma QuoteRead(s: string, r: string)
    ensures Quote(s) + r == "\"" + (Escape(s) + ("\"" + r))
    ensures ReadChars((Quote(s) + r)[1..]) == Some((s, r))
  {
    Assoc("\"", Escape(s) + "\"", r);
    Assoc(Escape(s), "\"", r);
    CharsRead(s, r);
    assert ("\"" + (Escape(s) + ("\"" + r)))[1..] == Escape(s) + ("\"" + r);
  }

  /** What can follow a value: nothing, or a separator. */
  predicate Stops(r: string) {
    r == [] || r[0] == ',' || r[0] == ']' || r[0] == '}'
  }

  lemma {:induction false} RunOfDigits(d: string, r: string)
    requires AllDigits(d) && Stops(r)
    ensures DigitRun(d + r) == |d|
    decreases |d|
  {
    if d == [] {
      assert d + r == r;
    } else {
      assert (d + r)[1..] == d[1..] + r;
      RunOfDigits(d[1..], r);
    }
  }

  lemma NatRead(n: nat, r: string)
    requires Stops(r)
    ensures ReadNat(NatToString(n) + r) == Some((n, r))
  {
    var d := NatToString(n);
    NatToStringValue(n);
    NoLeadingZero(n);
    RunOfDigits(d, r);
    assert (d + r)[..|d|] == d && (d + r)[|d|..] == r;
  }

  lemma IntStarts(n: int)
    ensures |IntToString(n)| > 0 && (IntToString(n)[0] == '-' || IsDigit(IntToString(n)[0]))
    ensures n >= 0 ==> IsDigit(IntToString(n)[0])
  {
    NatToStringValue(if n < 0 then -n else n);
  }

  lemma NegativeRead(n: nat, r: string)
    requires Stops(r) && n > 0
    ensures ReadInt(("-" + NatToString(n)) + r) == Some((Num(0 - n), r))
  {
    NatRead(n, r);
    assert (("-" + NatToString(n)) + r)[1..] == NatToString(n) + r;
  }

  lemma IntRead(n: int, r: string)
    requires Stops(r)
    ensures ReadInt(IntToString(n) + r) == Some((Num(n), r))
  {
    if n < 0 {
      NegativeRead(-n, r);
    } else {
      NatRead(n, r);
      IntStarts(n);
      assert (IntToString(n) + r)[0] == IntToString(n)[0];
    }
  }

  lemma NumberRead(n: int, r: string)
    requires Stops(r)
    ensures ReadValue(IntToString(n) + r) == Some((Num(n), r))
  {
    IntStarts(n);
    IntRead(n, r);
    assert (IntToString(n) + r)[0] == IntToString(n)[0];
  }

  lemma TextRead(s: string, r: string)
    ensures ReadValue(Quote(s) + r) == Some((Str(s), r))
  {
    QuoteRead(s, r);
  }

  lemma NameRead(v: Json, r: string)
    requires v.Null? || v.Bool?
    ensures ReadValue(Print(v) + r) == Some((v, r))
  {
    var p := Print(v);
    assert p <= p + r && (p + r)[|p|..] == r && (p + r)[0] == p[0];
  }

  lemma ItemsStop(items: seq<Json>, r: string)
    ensures Stops(PrintItems(items) + r)
  {
  }

  lemma FieldsStop(fields: seq<Keyed<Json>>, r: string)
    ensures Stops(PrintFields(fields) + r)
  {
  }

  /** The first character tells what follows; no value starts with a closing bracket. */
  lemma PrintStarts(v: Json)
    ensures |Print(v)| > 0 && Print(v)[0] != ']'
  {
    if v.Num? {
      IntStarts(v.n);
    }
  }

  lemma ArrayRead(t: string, body: string, items: seq<Json>, r: string)
    requires t == "[" + body
    requires if items == [] then body == "]" + r else !("]" <= body) && ReadItems(body) == Some((items, r))
    ensures ReadValue(t) == Some((Arr(items), r))
  {
    assert t[0] == '[' && t[1..] == body && (items == [] ==> t[2..] == r);
  }

  lemma ObjectRead(t: string, body: string, fields: seq<Keyed<Json>>, r: string)
    requires t == "{" + body
    requires if fields == [] then body == "}" + r else !("}" <= body) && ReadFields(body) == Some((fields, r))
    ensures ReadValue(t) == Some((Obj(fields), r))
  {
    assert t[0] == '{' && t[1..] == body && (fields == [] ==> t[2..] == r);
  }

  lemma LastItem(t: string, v: Json, r: string)
    requires ReadValue(t) == Some((v, "]" + r))
    ensures ReadItems(t) == Some(([v], r))
  {
    assert ("]" + r)[1..] == r;
  }

  lemma NextItem(t: string, v: Json, u: string, rest: seq<Json>, r: string)
    requires ReadValue(t) == Some((v, "," + u)) && ReadItems(u) == Some((rest, r))
    ensures ReadItems(t) == Some(([v] + rest, r))
  {
    assert ("," + u)[1..] == u;
  }

  lemma LastField(t: string, f: Keyed<Json>, r: string)
    requires ReadField(t) == Some((f, "}" + r))
    ensures ReadFields(t) == Some(([f], r))
  {
    assert ("}" + r)[1..] == r;
  }

  lemma NextField(t: string, f: Keyed<Json>, u: string, rest: seq<Keyed<Json>>, r: string)
    requires ReadField(t) == Some((f, "," + u)) && ReadFields(u) == Some((rest, r))
    ensures ReadFields(t) == Some(([f] + rest, r))
  {
    assert ("," + u)[1..] == u;
  }

  lemma KeyAndValue(t: string, key: string, u: string, v: Json, r: string)
    requires t != [] && t[0] == '\"' && ReadChars(t[1..]) == Some((key, ":" + u)) && ReadValue(u) == Some((v, r))
    ensures ReadField(t) == Some((Keyed(key, v), r))
  {
    assert (":" + u)[1..] == u;
  }

  /** Every printed value is read back, with whatever follows it. */
  lemma {:induction false} PrintRead(v: Json, r: string)
    requires Stops(r)
    ensures ReadValue(Print(v) + r) == Some((v, r))
    decreases v, 1
  {
    match v {
      case Num(n) =>
        NumberRead(n, r);
      case Str(s) =>
        TextRead(s, r);
      case Arr(items) =>
        Assoc("[", PrintBody(items), r);
        if items != [] {
          ItemsRead(items, r);
        }
        ArrayRead(Print(v) + r, PrintBody(items) + r, items, r);
      case Obj(fields) =>
        Assoc("{", PrintFieldBody(fields), r);
        if fields != [] {
          FieldsRead(fields, r);
        }
        ObjectRead(Print(v) + r, PrintFieldBody(fields) + r, fields, r);
      case _ =>
        NameRead(v, r);
    }
  }

  lemma {:induction false} ItemsRead(items: seq<Json>, r: string)
    requires items != []
    ensures !("]" <= PrintBody(items) + r)
    ensures ReadItems(PrintBody(items) + r) == Some((items, r))
    decreases items, 0
  {
    var t := PrintBody(items) + r;
    Assoc(Print(items[0]), PrintItems(items[1..]), r);
    PrintStarts(items[0]);
    ItemsStop(items[1..], r);
    PrintRead(items[0], PrintItems(items[1..]) + r);
    if |items| == 1 {
      LastItem(t, items[0], r);
      assert items == [items[0]];
    } else {
      Assoc(",", PrintBody(items[1..]), r);
      ItemsRead(items[1..], r);
      NextItem(t, items[0], PrintBody(items[1..]) + r, items[1..], r);
      assert items == [items[0]] + items[1..];
    }
  }

  lemma {:induction false} FieldRead(f: Keyed<Json>, r: string)
    requires Stops(r)
    ensures ReadField(PrintField(f) + r) == Some((f, r))
    decreases f, 1
  {
    Assoc(Quote(f.key), ":" + Print(f.item), r);
    Assoc(":", Print(f.item), r);
    QuoteRead(f.key, ":" + (Print(f.item) + r));
    PrintRead(f.item, r);
    KeyAndValue(PrintField(f) + r, f.key, Print(f.item) + r, f.item, r);
  }

  lemma {:induction false} FieldsRead(fields: seq<Keyed<Json>>, r: string)
    requires fields != []
    ensures !("}" <= PrintFieldBody(fields) + r)
    ensures ReadFields(PrintFieldBody(fields) + r) == Some((fields, r))
    decreases fields, 0
  {
    var t := PrintFieldBody(fields) + r;
    Assoc(PrintField(fields[0]), PrintFields(fields[1..]), r);
    FieldsStop(fields[1..], r);
    FieldRead(fields[0], PrintFields(fields[1..]) + r);
    if |fields| == 1 {
      LastField(t, fields[0], r);
      assert fields == [fields[0]];
    } else {
      Assoc(",", PrintFieldBody(fields[1..]), r);
      FieldsRead(fields[1..], r);
      NextField(t, fields[0], PrintFieldBody(fields[1..]) + r, fields[1..], r);
      assert fields == [fields[0]] + fields[1..];
    }
  }

  /** So printing is uniquely readable, whatever follows. */
  lemma PrintUnique(v: Json, w: Json, r: string, t: string)
    requires Stops(r) && Stops(t) && Print(v) + r == Print(w) + t
    ensures v == w && r == t
  {
    PrintRead(v, r);
    PrintRead(w, t);
  }

  /** Only what must be escaped is, in two characters where the grammar has a short form and in six otherwise. */
  lemma EscapesAreMinimal(c: char)
    ensures EscapeChar(c) == [c] <==> c >= ' ' && c != '\"' && c != '\\'
    ensures |EscapeChar(c)| == 6 <==> c < ' ' && forall d :: Unescaped(d) != Some(c)
    ensures |EscapeChar(c)| in {1, 2, 6}
    ensures c < ' ' ==> forall i :: 0 <= i < |EscapeChar(c)| ==> !('A' <= EscapeChar(c)[i] <= 'Z')
  {
    assert Unescaped('b') == Some(8 as char) && Unescaped('f') == Some(12 as char);
    assert Unescaped('n') == Some('\n') && Unescaped('r') == Some('\r') && Unescaped('t') == Some('\t');
  }

  // ---------- what canonical equality means ----------

  /** A JavaScript object has each key once, at every level. */
  ghost predicate WellFormed(v: Json) {
    match v
    case Arr(items) => forall i :: 0 <= i < |items| ==> WellFormed(items[i])
    case Obj(fields) => DistinctKeys(fields) && forall i :: 0 <= i < |fields| ==> WellFormed(fields[i].item)
    case _ => true
  }

  /** Equality up to the order of object keys. */
  ghost predicate SameJson(v: Json, w: Json)
    decreases v, 1
  {
    match (v, w)
    case (Arr(a), Arr(b)) => |a| == |b| && forall i :: 0 <= i < |a| ==> SameJson(a[i], b[i])
    case (Obj(a), Obj(b)) =>
      |a| == |b| && forall i :: 0 <= i < |a| ==> HasField(a[i], b)
    case _ => v == w
  }

  /** Some field has this key and an equal value. */
  ghost predicate HasField(f: Keyed<Json>, fields: seq<Keyed<Json>>)
    decreases f, 0
  {
    exists j :: 0 <= j < |fields| && f.key == fields[j].key && SameJson(f.item, fields[j].item)
  }

  lemma SortKeysDistinct(fields: seq<Keyed<Json>>)
    requires DistinctKeys(fields)
    ensures DistinctKeys(SortKeysFields(fields))
  {
  }

  lemma MatchingField(a: seq<Keyed<Json>>, b: seq<Keyed<Json>>, i: nat) returns (j: nat)
    requires i < |a| && multiset(SortKeysFields(a)) == multiset(SortKeysFields(b))
    ensures j < |b| && a[i].key == b[j].key && SortKeys(a[i].item) == SortKeys(b[j].item)
  {
    var x, y := SortKeysFields(a), SortKeysFields(b);
    InSameMultiset(x, y, x[i]);
    j :| 0 <= j < |y| && y[j] == x[i];
  }

  /** Field lists whose sorted-key forms hold the same elements are the same up to order. */
  lemma SameElementsSame(a: seq<Keyed<Json>>, b: seq<Keyed<Json>>)
    requires forall i, j :: 0 <= i < |a| && 0 <= j < |b| && SortKeys(a[i].item) == SortKeys(b[j].item) ==>
               SameJson(a[i].item, b[j].item)
    requires multiset(SortKeysFields(a)) == multiset(SortKeysFields(b))
    ensures SameJson(Obj(a), Obj(b))
  {
    SameSize(SortKeysFields(a), SortKeysFields(b));
    forall i | 0 <= i < |a|
      ensures HasField(a[i], b)
    {
      var j := MatchingField(a, b, i);
      assert SameJson(a[i].item, b[j].item);
    }
  }

  lemma SameIncluded(a: seq<Keyed<Json>>, b: seq<Keyed<Json>>)
    requires forall i, j :: 0 <= i < |a| && 0 <= j < |b| && SameJson(a[i].item, b[j].item) ==>
               SortKeys(a[i].item) == SortKeys(b[j].item)
    requires SameJson(Obj(a), Obj(b))
    ensures forall i :: 0 <= i < |a| ==> SortKeysFields(a)[i] in SortKeysFields(b)
  {
    var x, y := SortKeysFields(a), SortKeysFields(b);
    forall i | 0 <= i < |a|
      ensures x[i] in y
    {
      assert HasField(a[i], b);
      var j :| 0 <= j < |b| && a[i].key == b[j].key && SameJson(a[i].item, b[j].item);
      assert x[i] == Keyed(a[i].key, SortKeys(a[i].item)) && y[j] == Keyed(b[j].key, SortKeys(b[j].item));
    }
  }

  lemma ObjMeaning(a: seq<Keyed<Json>>, b: seq<Keyed<Json>>)
    requires DistinctKeys(a) && DistinctKeys(b)
    requires forall i, j :: 0 <= i < |a| && 0 <= j < |b| ==>
               (SortKeys(a[i].item) == SortKeys(b[j].item) <==> SameJson(a[i].item, b[j].item))
    ensures SortKeys(Obj(a)) == SortKeys(Obj(b)) <==> SameJson(Obj(a), Obj(b))
  {
    var x, y := SortKeysFields(a), SortKeysFields(b);
    SortKeysDistinct(a);
    SortKeysDistinct(b);
    SortIdentifiesMultisets(x, y);
    if multiset(x) == multiset(y) {
      SameElementsSame(a, b);
    }
    if SameJson(Obj(a), Obj(b)) {
      SameIncluded(a, b);
      InclusionRearranges(x, y);
    }
  }

  /** Sorted forms agree exactly when the values agree up to key order. */
  lemma {:induction false} SortKeysMeaning(v: Json, w: Json)
    requires WellFormed(v) && WellFormed(w)
    ensures SortKeys(v) == SortKeys(w) <==> SameJson(v, w)
    decreases v
  {
    match (v, w) {
      case (Arr(a), Arr(b)) =>
        if |a| == |b| {
          forall i | 0 <= i < |a|
            ensures SortKeys(a[i]) == SortKeys(b[i]) <==> SameJson(a[i], b[i])
          {
            SortKeysMeaning(a[i], b[i]);
          }
          if SameJson(v, w) {
            assert SortKeysItems(a) == SortKeysItems(b);
          }
        }
      case (Obj(a), Obj(b)) =>
        forall i, j | 0 <= i < |a| && 0 <= j < |b|
          ensures SortKeys(a[i].item) == SortKeys(b[j].item) <==> SameJson(a[i].item, b[j].item)
        {
          SortKeysMeaning(a[i].item, b[j].item);
        }
        ObjMeaning(a, b);
      case _ =>
    }
  }

  /** `canonicalJson` prints two values alike exactly when they are equal up to key order. */
  lemma CanonicalJsonInjective(v: Json, w: Json)
    requires WellFormed(v) && WellFormed(w)
    ensures CanonicalJson(v) == CanonicalJson(w) <==> SameJson(v, w)
  {
    SortKeysMeaning(v, w);
    if CanonicalJson(v) == CanonicalJson(w) {
      assert CanonicalJson(v) + "" == CanonicalJson(w) + "";
      PrintUnique(SortKeys(v), SortKeys(w), "", "");
    }
  }

  // ---------- what canonical text is ----------

  /** At every depth the keys of every object ascend by their UTF-16 code units. */
  ghost predicate KeysAscend(v: Json) {
    match v
    case Arr(items) => forall i :: 0 <= i < |items| ==> KeysAscend(items[i])
    case Obj(fields) =>
      && (forall i, j :: 0 <= i < j < |fields| ==> UnitsLe(Units(fields[i].key), Units(fields[j].key)))
      && forall i :: 0 <= i < |fields| ==> KeysAscend(fields[i].item)
    case _ => true
  }

  lemma SortedAscends(fields: seq<Keyed<Json>>)
    requires forall f :: f in fields ==> KeysAscend(f.item)
    ensures KeysAscend(Obj(Sort(fields)))
  {
    var r := Sort(fields);
    SortSorted(fields);
    forall i, j | 0 <= i < j < |r|
      ensures UnitsLe(Units(r[i].key), Units(r[j].key))
    {
      LexLeIsUtf16(r[i].key, r[j].key);
    }
    forall i | 0 <= i < |r|
      ensures KeysAscend(r[i].item)
    {
      InSameMultiset(r, fields, r[i]);
    }
  }

  lemma {:induction false} SortKeysAscend(v: Json)
    ensures KeysAscend(SortKeys(v))
    decreases v
  {
    match v {
      case Arr(items) =>
        forall i | 0 <= i < |items|
          ensures KeysAscend(SortKeys(items[i]))
        {
          SortKeysAscend(items[i]);
        }
      case Obj(fields) =>
        forall i | 0 <= i < |fields|
          ensures KeysAscend(SortKeys(fields[i].item))
        {
          SortKeysAscend(fields[i].item);
        }
        SortedAscends(SortKeysFields(fields));
      case _ =>
    }
  }

  /** Sorting the keys of a value changes nothing but their order. */
  lemma {:induction false} SortKeysSame(v: Json)
    requires WellFormed(v)
    ensures SameJson(SortKeys(v), v)
    decreases v
  {
    match v {
      case Arr(items) =>
        forall i | 0 <= i < |items|
          ensures SameJson(SortKeys(items[i]), items[i])
        {
          SortKeysSame(items[i]);
        }
      case Obj(fields) =>
        var x := SortKeysFields(fields);
        var r := Sort(x);
        forall i | 0 <= i < |r|
          ensures HasField(r[i], fields)
        {
          InSameMultiset(r, x, r[i]);
          var j :| 0 <= j < |x| && x[j] == r[i];
          SortKeysSame(fields[j].item);
        }
      case _ =>
    }
  }

  /**
   What canonical text is: JSON that reads back, without a rest, as a value equal up to key order in which every
   object's keys ascend.
   */
  lemma CanonicalJsonReads(v: Json)
    requires WellFormed(v)
    ensures var r := ReadValue(CanonicalJson(v));
      r.Some? && r.value.1 == "" && SameJson(r.value.0, v) && KeysAscend(r.value.0)
  {
    PrintRead(SortKeys(v), "");
    assert Print(SortKeys(v)) + "" == Print(SortKeys(v));
    SortKeysAscend(v);
    SortKeysSame(v);
  }
}
