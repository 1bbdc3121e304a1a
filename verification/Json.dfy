/**
 * The bundle's only JSON encoding and the strict reader beside it (`canonical`, `unique` and
 * `document` of the receipt verifier). Strings are Python strings: sequences of code points in
 * which a lone surrogate may stand. Numbers are integers.
 */
module Json {
  import opened Prelude
  import Order

  type Code = c: int | 0 <= c < 0x110000

  type Text = seq<Code>

  /** A character of an encoded document: `ensure_ascii=True`. */
  type Ascii = c: int | 0 <= c < 128

  datatype Value =
    | Null
    | Bool(b: bool)
    | Num(n: int)
    | Str(s: Text)
    | Arr(items: seq<Value>)
    | Obj(fields: map<Text, Value>)

  const QUOTE: Ascii := 34
  const COMMA: Ascii := 44
  const COLON: Ascii := 58
  const OPEN_ARR: Ascii := 91
  const BACKSLASH: Ascii := 92
  const CLOSE_ARR: Ascii := 93
  const LETTER_U: Ascii := 117
  const OPEN_OBJ: Ascii := 123
  const CLOSE_OBJ: Ascii := 125
  const MINUS: Ascii := 45
  const ZERO: Ascii := 48

  const NULL_WORD: seq<Ascii> := [110, 117, 108, 108]
  const TRUE_WORD: seq<Ascii> := [116, 114, 117, 101]
  const FALSE_WORD: seq<Ascii> := [102, 97, 108, 115, 101]

  // ------------------------------------------------------------------ printing

  function HexDigit(d: int): Ascii
    requires 0 <= d < 16
  {
    if d < 10 then 48 + d else 87 + d
  }

  function Hex(c: int): seq<Ascii>
    requires 0 <= c < 0x10000
  {
    [HexDigit(c / 4096), HexDigit(c / 256 % 16), HexDigit(c / 16 % 16), HexDigit(c % 16)]
  }

  function UnicodeEscape(c: int): seq<Ascii>
    requires 0 <= c < 0x10000
  {
    [BACKSLASH, LETTER_U] + Hex(c)
  }

  /** The letter after the backslash of a two-character escape. */
  function Short(c: Code): Option<Ascii> {
    if c == QUOTE || c == BACKSLASH then Some(c)
    else if c == 8 then Some(98)
    else if c == 12 then Some(102)
    else if c == 10 then Some(110)
    else if c == 13 then Some(114)
    else if c == 9 then Some(116)
    else None
  }

  function EscapeCode(c: Code): (e: seq<Ascii>)
    ensures e != []
  {
    if Short(c).Some? then [BACKSLASH, Short(c).value]
    else if 32 <= c <= 126 then [c]
    else if c < 0x10000 then UnicodeEscape(c)
    else UnicodeEscape(HighHalf(c)) + UnicodeEscape(LowHalf(c))
  }

  function HighHalf(c: Code): (h: Code)
    requires c >= 0x10000
    ensures IsHigh(h)
  {
    0xD800 + (c - 0x10000) / 0x400
  }

  function LowHalf(c: Code): (l: Code)
    requires c >= 0x10000
    ensures IsLow(l)
  {
    0xDC00 + (c - 0x10000) % 0x400
  }

  function JoinHalves(h: Code, l: Code): (c: Code)
    requires IsHigh(h) && IsLow(l)
    ensures c >= 0x10000
  {
    0x10000 + (h - 0xD800) * 0x400 + (l - 0xDC00)
  }

  function Escaped(s: Text): seq<Ascii> {
    if s == [] then [] else EscapeCode(s[0]) + Escaped(s[1..])
  }

  function Quote(s: Text): seq<Ascii> {
    [QUOTE] + Escaped(s) + [QUOTE]
  }

  /** `json.dumps(v, sort_keys=True, ensure_ascii=True, separators=(",", ":"))`. */
  function Print(v: Value): seq<Ascii>
    decreases v, 0
  {
    match v
    case Null => NULL_WORD
    case Bool(b) => if b then TRUE_WORD else FALSE_WORD
    case Num(n) => if n < 0 then [MINUS] + Digits(-n) else Digits(n)
    case Str(s) => Quote(s)
    case Arr(items) => [OPEN_ARR] + PrintItems(items) + [CLOSE_ARR]
    case Obj(fields) => [OPEN_OBJ] + PrintFields(v, Keys(fields)) + [CLOSE_OBJ]
  }

  function PrintItems(items: seq<Value>): seq<Ascii>
    decreases items
  {
    if items == [] then []
    else if |items| == 1 then Print(items[0])
    else Print(items[0]) + [COMMA] + PrintItems(items[1..])
  }

  function PrintFields(v: Value, keys: seq<Text>): seq<Ascii>
    requires v.Obj? && forall k :: k in keys ==> k in v.fields
    decreases v, 0, |keys|
  {
    if keys == [] then []
    else
      var first := Quote(keys[0]) + [COLON] + Print(v.fields[keys[0]]);
      if |keys| == 1 then first else first + [COMMA] + PrintFields(v, keys[1..])
  }

  /** The field names in the order `sort_keys` prints them. */
  function Keys(fields: map<Text, Value>): (keys: seq<Text>)
    ensures forall k :: k in keys <==> k in fields
    ensures Order.Increasing(keys)
  {
    var keys := Order.Sorted(fields.Keys);
    assert forall i :: 0 <= i < |keys| ==> keys[i] in keys && keys[i] in fields;
    keys
  }

  // ------------------------------------------------------------------ reading

  predicate IsDigit(c: Ascii) { 48 <= c <= 57 }

  predicate IsHigh(c: Code) { 0xD800 <= c < 0xDC00 }

  predicate IsLow(c: Code) { 0xDC00 <= c < 0xE000 }

  predicate IsSpace(c: Ascii) { c == 32 || c == 9 || c == 10 || c == 13 }

  datatype Error = Syntax | DuplicateField | NotAnInteger | NotAscii

  /** What a reader leaves of its input: a result and the unread rest. */
  type Parsed<T> = Result<(T, seq<Ascii>), Error>

  function SkipSpace(s: seq<Ascii>): (r: seq<Ascii>)
    ensures |r| <= |s|
  {
    if s != [] && IsSpace(s[0]) then SkipSpace(s[1..]) else s
  }

  function HexValue(c: Ascii): Option<nat> {
    if 48 <= c <= 57 then Some(c - 48)
    else if 97 <= c <= 102 then Some(c - 87)
    else if 65 <= c <= 70 then Some(c - 55)
    else None
  }

  /** Four hexadecimal digits at the start of `s`. */
  function Hex4(s: seq<Ascii>): (r: Option<nat>)
    ensures r.Some? ==> |s| >= 4 && r.value < 0x10000
  {
    if |s| < 4 then None else
      var a, b, c, d := HexValue(s[0]), HexValue(s[1]), HexValue(s[2]), HexValue(s[3]);
      if a.None? || b.None? || c.None? || d.None? then None
      else Some(a.value * 4096 + b.value * 256 + c.value * 16 + d.value)
  }

  /** `\uXXXX` at the start of `s`. */
  function UnicodeAt(s: seq<Ascii>): (r: Option<nat>)
    ensures r.Some? ==> |s| >= 6 && r.value < 0x10000
  {
    if |s| >= 2 && s[0] == BACKSLASH && s[1] == LETTER_U then Hex4(s[2..]) else None
  }

  function Unescape(letter: Ascii): Option<Code> {
    if letter == QUOTE || letter == BACKSLASH || letter == 47 then Some(letter)
    else if letter == 98 then Some(8)
    else if letter == 102 then Some(12)
    else if letter == 110 then Some(10)
    else if letter == 114 then Some(13)
    else if letter == 116 then Some(9)
    else None
  }

  /** One escape, `s` starting at its backslash; a high surrogate takes a low one that follows. */
  function ParseEscape(s: seq<Ascii>): (r: Parsed<Code>)
    requires s != [] && s[0] == BACKSLASH
    ensures r.Ok? ==> |r.value.1| < |s|
  {
    if |s| < 2 then Err(Syntax)
    else if Unescape(s[1]).Some? then Ok((Unescape(s[1]).value, s[2..]))
    else
      match UnicodeAt(s)
      case None => Err(Syntax)
      case Some(c) =>
        var next := UnicodeAt(s[6..]);
        if IsHigh(c) && next.Some? && IsLow(next.value)
        then Ok((JoinHalves(c, next.value), s[12..]))
        else Ok((c, s[6..]))
  }

  /** A string's characters, `s` starting after the opening quote. */
  function ParseString(s: seq<Ascii>): (r: Parsed<Text>)
    ensures r.Ok? ==> |r.value.1| < |s|
    decreases |s|
  {
    if s == [] then Err(Syntax)
    else if s[0] == QUOTE then Ok(([], s[1..]))
    else if s[0] == BACKSLASH then
      var (c, more) :- ParseEscape(s);
      var (t, rest) :- ParseString(more);
      Ok(([c] + t, rest))
    else if s[0] < 32 then Err(Syntax)
    else
      var (t, rest) :- ParseString(s[1..]);
      var plain: Text := [s[0]] + t;
      Ok((plain, rest))
  }

  function DigitRun(s: seq<Ascii>): (n: nat)
    ensures n <= |s|
  {
    if s != [] && IsDigit(s[0]) then 1 + DigitRun(s[1..]) else 0
  }

  function ValueOf(ds: seq<Ascii>): nat
    requires forall k :: 0 <= k < |ds| ==> IsDigit(ds[k])
  {
    if ds == [] then 0
    else
      var last := ds[|ds| - 1];
      assert IsDigit(last);
      10 * ValueOf(ds[..|ds| - 1]) + (last - 48)
  }

  lemma DigitRunDigits(s: seq<Ascii>)
    ensures forall k :: 0 <= k < DigitRun(s) ==> IsDigit(s[k])
  {
  }

  predicate DigitAt(s: seq<Ascii>, i: nat) { i < |s| && IsDigit(s[i]) }

  /** A fraction or an exponent follows the integer part: a float. */
  predicate FloatTail(s: seq<Ascii>) {
    s != [] &&
    ((s[0] == 46 && DigitAt(s, 1)) ||
     ((s[0] == 101 || s[0] == 69) &&
      (DigitAt(s, 1) || (|s| >= 2 && (s[1] == 43 || s[1] == MINUS) && DigitAt(s, 2)))))
  }

  function ParseNatural(t: seq<Ascii>): (r: Parsed<nat>)
    ensures r.Ok? ==> |r.value.1| < |t|
  {
    var run := if t != [] && t[0] == ZERO then 1 else DigitRun(t);
    if run == 0 then Err(Syntax)
    else if FloatTail(t[run..]) then Err(NotAnInteger)
    else
      assert forall k :: 0 <= k < run ==> IsDigit(t[k]) by { DigitRunDigits(t); }
      Ok((ValueOf(t[..run]), t[run..]))
  }

  function ParseNumber(s: seq<Ascii>): (r: Parsed<Value>)
    ensures r.Ok? ==> |r.value.1| < |s|
  {
    if s != [] && s[0] == MINUS then
      var (n, rest) :- ParseNatural(s[1..]);
      Ok((Num(-(n as int)), rest))
    else
      var (n, rest) :- ParseNatural(s);
      Ok((Num(n), rest))
  }

  /** `unique`: the object hook that refuses a repeated field name. */
  function Unique(pairs: seq<(Text, Value)>): Result<map<Text, Value>, Error> {
    if pairs == [] then Ok(map[])
    else
      var m :- Unique(pairs[..|pairs| - 1]);
      var (name, value) := pairs[|pairs| - 1];
      if name in m then Err(DuplicateField) else Ok(m[name := value])
  }

  method CollectFields(pairs: seq<(Text, Value)>) returns (r: Result<map<Text, Value>, Error>)
    ensures r == Unique(pairs)
  {
    var fields: map<Text, Value> := map[];
    for k := 0 to |pairs|
      invariant Unique(pairs[..k]) == Ok(fields)
    {
      var (name, value) := pairs[k];
      assert pairs[..k + 1][..k] == pairs[..k];
      if name in fields {
        UniqueStaysRefused(pairs, k + 1);
        return Err(DuplicateField);
      }
      fields := fields[name := value];
    }
    assert pairs[..|pairs|] == pairs;
    return Ok(fields);
  }

  lemma UniqueNext(pairs: seq<(Text, Value)>)
    ensures pairs == [] ==> Unique(pairs) == Ok(map[])
    ensures pairs != [] ==>
      var init, (name, value) := Unique(pairs[..|pairs| - 1]), pairs[|pairs| - 1];
      Unique(pairs) == if init.Err? then init
                       else if name in init.value then Err(DuplicateField)
                       else Ok(init.value[name := value])
  {
  }

  /** Exactly the lists without a repeated name become an object, with every pair in it and nothing else. */
  lemma {:induction false} UniqueExactly(pairs: seq<(Text, Value)>)
    ensures Unique(pairs).Ok? <==> forall i, j :: 0 <= i < j < |pairs| ==> pairs[i].0 != pairs[j].0
    ensures Unique(pairs).Ok? ==>
      && (forall i :: 0 <= i < |pairs| ==>
            pairs[i].0 in Unique(pairs).value && Unique(pairs).value[pairs[i].0] == pairs[i].1)
      && (forall name :: name in Unique(pairs).value ==> exists i :: 0 <= i < |pairs| && pairs[i].0 == name)
  {
    hide Unique;
    UniqueNext(pairs);
    if pairs != [] {
      var init, last := pairs[..|pairs| - 1], |pairs| - 1;
      UniqueExactly(init);
      assert forall i :: 0 <= i < last ==> init[i] == pairs[i];
      if Unique(init).Ok? && pairs[last].0 in Unique(init).value {
        var i :| 0 <= i < last && init[i].0 == pairs[last].0;
        assert pairs[i].0 == pairs[last].0;
      }
    }
  }

  /** A repeated name refuses every longer list too. */
  lemma {:induction false} UniqueStaysRefused(pairs: seq<(Text, Value)>, k: nat)
    requires k <= |pairs| && Unique(pairs[..k]) == Err(DuplicateField)
    ensures Unique(pairs) == Err(DuplicateField)
  {
    if k == |pairs| {
      assert pairs[..k] == pairs;
    } else {
      var init := pairs[..|pairs| - 1];
      assert init[..k] == pairs[..k];
      UniqueStaysRefused(init, k);
    }
  }

  function ParseValue(s: seq<Ascii>): (r: Parsed<Value>)
    ensures r.Ok? ==> |r.value.1| < |s|
    decreases |s|, 0
  {
    if s == [] then Err(Syntax)
    else if s[0] == QUOTE then
      var (t, rest) :- ParseString(s[1..]);
      Ok((Str(t), rest))
    else if s[0] == OPEN_OBJ then
      var body := SkipSpace(s[1..]);
      if body != [] && body[0] == CLOSE_OBJ then Ok((Obj(map[]), body[1..]))
      else
        var (pairs, rest) :- ParseMembers(body);
        var fields :- Unique(pairs);
        Ok((Obj(fields), rest))
    else if s[0] == OPEN_ARR then
      var body := SkipSpace(s[1..]);
      if body != [] && body[0] == CLOSE_ARR then Ok((Arr([]), body[1..]))
      else
        var (items, rest) :- ParseItems(body);
        Ok((Arr(items), rest))
    else if NULL_WORD <= s then Ok((Null, s[4..]))
    else if TRUE_WORD <= s then Ok((Bool(true), s[4..]))
    else if FALSE_WORD <= s then Ok((Bool(false), s[5..]))
    else ParseNumber(s)
  }

  function ParseItems(s: seq<Ascii>): (r: Parsed<seq<Value>>)
    ensures r.Ok? ==> |r.value.1| < |s|
    decreases |s|, 1
  {
    var (v, more) :- ParseValue(s);
    var next := SkipSpace(more);
    if next != [] && next[0] == CLOSE_ARR then Ok(([v], next[1..]))
    else if next != [] && next[0] == COMMA then
      var (items, rest) :- ParseItems(SkipSpace(next[1..]));
      Ok(([v] + items, rest))
    else Err(Syntax)
  }

  function ParseMembers(s: seq<Ascii>): (r: Parsed<seq<(Text, Value)>>)
    ensures r.Ok? ==> |r.value.1| < |s|
    decreases |s|, 1
  {
    if s == [] || s[0] != QUOTE then Err(Syntax)
    else
      var (name, more) :- ParseString(s[1..]);
      var colon := SkipSpace(more);
      if colon == [] || colon[0] != COLON then Err(Syntax)
      else
        var (v, after) :- ParseValue(SkipSpace(colon[1..]));
        var next := SkipSpace(after);
        if next != [] && next[0] == CLOSE_OBJ then Ok(([(name, v)], next[1..]))
        else if next != [] && next[0] == COMMA then
          var (members, rest) :- ParseMembers(SkipSpace(next[1..]));
          Ok(([(name, v)] + members, rest))
        else Err(Syntax)
  }

  /** `document`: one value with nothing but whitespace around it. */
  function Document(raw: Bytes): Result<Value, Error> {
    if exists k :: 0 <= k < |raw| && raw[k] >= 128 then Err(NotAscii)
    else
      var text: seq<Ascii> := raw;
      var (v, rest) :- ParseValue(SkipSpace(text));
      if SkipSpace(rest) == [] then Ok(v) else Err(Syntax)
  }

  /** `canonical`. */
  function Canonical(v: Value): Bytes { Print(v) }

  // ------------------------------------------------------------------ paired surrogates

  /** No high surrogate stands directly before a low one: what a reader can hand back. */
  predicate PairedText(s: Text) {
    forall i :: 0 <= i < |s| - 1 ==> !(IsHigh(s[i]) && IsLow(s[i + 1]))
  }

  predicate Paired(v: Value)
    decreases v
  {
    match v
    case Str(s) => PairedText(s)
    case Arr(items) => forall i :: 0 <= i < |items| ==> Paired(items[i])
    case Obj(fields) => forall k :: k in fields ==> PairedText(k) && Paired(fields[k])
    case _ => true
  }
}
