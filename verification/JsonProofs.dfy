/** Printing and reading are inverse exactly on values whose strings hold no split surrogate pair. */
module JsonProofs {
  import opened Prelude
  import opened Json
  import Order

  // ------------------------------------------------------------------ strings

  lemma HexDigitValue(d: int)
    requires 0 <= d < 16
    ensures HexValue(HexDigit(d)) == Some(d)
  {
  }

  lemma HexSum(c: int)
    requires 0 <= c < 0x10000
    ensures c / 4096 * 4096 + c / 256 % 16 * 256 + c / 16 % 16 * 16 + c % 16 == c
  {
    var q, r, t := c / 16, c / 256, c / 4096;
    assert q / 16 == r && r / 16 == t;
  }

  lemma HexRoundTrip(c: int, rest: seq<Ascii>)
    requires 0 <= c < 0x10000
    ensures Hex4(Hex(c) + rest) == Some(c)
  {
    var h := Hex(c) + rest;
    var d0, d1, d2, d3 := c / 4096, c / 256 % 16, c / 16 % 16, c % 16;
    assert h[0] == HexDigit(d0) && h[1] == HexDigit(d1) && h[2] == HexDigit(d2) && h[3] == HexDigit(d3);
    HexDigitValue(d0);
    HexDigitValue(d1);
    HexDigitValue(d2);
    HexDigitValue(d3);
    HexSum(c);
  }

  lemma UnicodeRoundTrip(c: int, rest: seq<Ascii>)
    requires 0 <= c < 0x10000
    ensures UnicodeAt(UnicodeEscape(c) + rest) == Some(c)
    ensures (UnicodeEscape(c) + rest)[6..] == rest
  {
    HexRoundTrip(c, rest);
    assert (UnicodeEscape(c) + rest)[2..] == Hex(c) + rest;
  }

  lemma NotUnicode(s: seq<Ascii>)
    requires |s| >= 1 && (s[0] != BACKSLASH || (|s| >= 2 && s[1] != LETTER_U))
    ensures UnicodeAt(s).None?
  {
  }

  lemma ShortLetter(c: Code)
    ensures Short(c).Some? ==> Short(c).value != LETTER_U
    ensures Short(c).None? ==> c != BACKSLASH
  {
  }

  /** The character an escape at the start of a printed text names, when it is a low surrogate. */
  lemma FirstEscapeOf(c: Code, tail: seq<Ascii>)
    ensures var u := UnicodeAt(EscapeCode(c) + tail); u.Some? && IsLow(u.value) ==> c == u.value
  {
    hide UnicodeAt, UnicodeEscape, Short, HighHalf, LowHalf;
    var text := EscapeCode(c) + tail;
    ShortLetter(c);
    if Short(c).Some? || 32 <= c <= 126 {
      assert text[0] == EscapeCode(c)[0] && (Short(c).Some? ==> text[1] == Short(c).value);
      NotUnicode(text);
    } else if c < 0x10000 {
      UnicodeRoundTrip(c, tail);
    } else {
      var more := UnicodeEscape(LowHalf(c)) + tail;
      UnicodeRoundTrip(HighHalf(c), more);
      assert text == UnicodeEscape(HighHalf(c)) + more;
    }
  }

  lemma FirstEscape(s: Text, rest: seq<Ascii>)
    ensures var u := UnicodeAt(Escaped(s) + [QUOTE] + rest);
            u.Some? && IsLow(u.value) ==> s != [] && s[0] == u.value
  {
    hide UnicodeAt, EscapeCode, UnicodeEscape;
    if s == [] {
      NotUnicode([QUOTE] + rest);
      assert Escaped(s) + [QUOTE] + rest == [QUOTE] + rest;
    } else {
      var tail := Escaped(s[1..]) + [QUOTE] + rest;
      assert Escaped(s) + [QUOTE] + rest == EscapeCode(s[0]) + tail;
      FirstEscapeOf(s[0], tail);
    }
  }

  lemma HalvesRoundTrip(c: Code)
    requires c >= 0x10000
    ensures JoinHalves(HighHalf(c), LowHalf(c)) == c
  {
  }

  lemma EscapeRoundTrip(c: Code, rest: seq<Ascii>)
    requires !(Short(c).None? && 32 <= c <= 126)
    requires IsHigh(c) ==> var u := UnicodeAt(rest); !(u.Some? && IsLow(u.value))
    ensures ParseEscape(EscapeCode(c) + rest) == Ok((c, rest))
  {
    var s := EscapeCode(c) + rest;
    if Short(c).Some? {
      assert s[1] == Short(c).value;
      assert s[2..] == rest;
    } else if c < 0x10000 {
      UnicodeRoundTrip(c, rest);
      assert s[1] == LETTER_U;
    } else {
      var more := UnicodeEscape(LowHalf(c)) + rest;
      assert s == UnicodeEscape(HighHalf(c)) + more;
      UnicodeRoundTrip(HighHalf(c), more);
      UnicodeRoundTrip(LowHalf(c), rest);
      HalvesRoundTrip(c);
      assert s[1] == LETTER_U;
      assert s[12..] == more[6..];
    }
  }

  lemma EscapeStarts(c: Code)
    ensures if Short(c).None? && 32 <= c <= 126 then EscapeCode(c) == [c] && c != QUOTE && c != BACKSLASH
            else EscapeCode(c)[0] == BACKSLASH
  {
  }

  lemma {:induction false} StringRoundTrip(s: Text, rest: seq<Ascii>)
    requires PairedText(s)
    ensures ParseString(Escaped(s) + [QUOTE] + rest) == Ok((s, rest))
  {
    hide ParseEscape, UnicodeAt, Short, EscapeCode;
    var text := Escaped(s) + [QUOTE] + rest;
    if s == [] {
      assert text == [QUOTE] + rest;
    } else {
      var c, more := s[0], s[1..];
      var tail := Escaped(more) + [QUOTE] + rest;
      assert text == EscapeCode(c) + tail;
      EscapeStarts(c);
      assert text[0] == EscapeCode(c)[0];
      assert PairedText(more) by {
        forall i | 0 <= i < |more| - 1 ensures !(IsHigh(more[i]) && IsLow(more[i + 1])) {
          assert more[i] == s[i + 1] && more[i + 1] == s[i + 1 + 1];
        }
      }
      StringRoundTrip(more, rest);
      assert [c] + more == s;
      if !(Short(c).None? && 32 <= c <= 126) {
        FirstEscape(more, rest);
        EscapeRoundTrip(c, tail);
      } else {
        assert text[1..] == tail;
      }
    }
  }

  // ------------------------------------------------------------------ which escape is printed

  const LETTERS := "\"\\/bfnrt"
  const NAMED: seq<Code> := [34, 92, 47, 8, 12, 10, 13, 9]
  const LOWER := "0123456789abcdef"
  const UPPER := "0123456789ABCDEF"

  /** The tokens, white space, two-character escapes and hexadecimal digits of RFC 8259, sections 2 and 7. */
  lemma StandardEscapes()
    ensures forall k :: 0 <= k < |LETTERS| ==> Unescape(LETTERS[k] as int) == Some(NAMED[k])
    ensures forall l: Ascii :: Unescape(l).Some? ==> exists k :: 0 <= k < |LETTERS| && LETTERS[k] as int == l
    ensures forall d :: 0 <= d < 16 ==> HexDigit(d) == LOWER[d] as int && HexValue(UPPER[d] as int) == Some(d)
    ensures [BACKSLASH, LETTER_U] == Chars("\\u") && [QUOTE] == Chars("\"") && [MINUS, ZERO] == Chars("-0")
    ensures [OPEN_OBJ, CLOSE_OBJ, OPEN_ARR, CLOSE_ARR, COLON, COMMA] == Chars("{}[]:,")
    ensures NULL_WORD == Chars("null") && TRUE_WORD == Chars("true") && FALSE_WORD == Chars("false")
    ensures forall c: Ascii :: (IsSpace(c) <==> c in {32, 9, 10, 13}) && (IsDigit(c) <==> '0' as int <= c <= '9' as int)
  {
    forall l: Ascii | Unescape(l).Some? ensures exists k :: 0 <= k < |LETTERS| && LETTERS[k] as int == l {
      var k := if l == 34 then 0 else if l == 92 then 1 else if l == 47 then 2 else if l == 98 then 3
        else if l == 102 then 4 else if l == 110 then 5 else if l == 114 then 6 else 7;
      assert LETTERS[k] as int == l;
    }
  }

  lemma EndsAtQuote(s: seq<Ascii>)
    requires ParseString(s).Ok? && ParseString(s).value.0 == []
    ensures s != [] && s[0] == QUOTE && ParseString(s).value.1 == s[1..]
  {
  }

  lemma EscapeLength(c: Code)
    ensures |EscapeCode(c)| <= if c < 0x10000 then 6 else 12
    ensures 32 <= c <= 126 && c != QUOTE && c != BACKSLASH ==> |EscapeCode(c)| == 1
    ensures (exists l :: Unescape(l) == Some(c)) ==> |EscapeCode(c)| <= 2
  {
  }

  /** How much of a text an escape takes. */
  lemma EscapeTakes(s: seq<Ascii>)
    requires s != [] && s[0] == BACKSLASH && ParseEscape(s).Ok?
    ensures var (c, rest) := ParseEscape(s).value;
            || (|s| >= 2 && Unescape(s[1]) == Some(c) && rest == s[2..])
            || (|s| >= 6 && c < 0x10000 && rest == s[6..])
            || (|s| >= 12 && rest == s[12..])
  {
    hide Hex4, JoinHalves;
  }

  /** The first character of a text that reads as one. */
  lemma FirstRead(s: seq<Ascii>, c: Code)
    requires ParseString(s) == Ok(([c], []))
    ensures s != [] && s[0] != QUOTE
    ensures s[0] == BACKSLASH ==>
      ParseEscape(s).Ok? && ParseEscape(s).value.0 == c && ParseString(ParseEscape(s).value.1) == Ok(([], []))
    ensures s[0] != BACKSLASH ==> s[0] == c && ParseString(s[1..]) == Ok(([], []))
  {
    hide ParseEscape;
    if s[0] == BACKSLASH {
      var (x, more) := ParseEscape(s).value;
      var t := ParseString(more).value.0;
      assert ([x] + t)[0] == x && ([x] + t)[1..] == t;
    } else if s[0] != QUOTE {
      var t := ParseString(s[1..]).value.0;
      assert ([s[0]] + t)[0] == s[0] && ([s[0]] + t)[1..] == t;
    }
  }

  /** No printable text that reads as one character is shorter than the one that is printed for it. */
  lemma EscapeIsShortest(c: Code, e: seq<Ascii>)
    requires forall k :: 0 <= k < |e| ==> 32 <= e[k] <= 126
    requires ParseString(e + [QUOTE]) == Ok(([c], []))
    ensures |EscapeCode(c)| <= |e|
  {
    hide ParseEscape, EscapeCode, ParseString;
    var s := e + [QUOTE];
    EscapeLength(c);
    FirstRead(s, c);
    if s[0] == BACKSLASH {
      EscapeTakes(s);
      EndsAtQuote(ParseEscape(s).value.1);
    } else {
      EndsAtQuote(s[1..]);
      assert s[1..] == e[1..] + [QUOTE];
    }
  }

  // ------------------------------------------------------------------ numbers

  lemma {:induction false} DigitsRoundTrip(n: nat)
    ensures ValueOf(Digits(n)) == n
    ensures Digits(n)[0] == ZERO <==> n == 0
  {
    var ds := Digits(n);
    if n >= 10 {
      DigitsRoundTrip(n / 10);
      assert ds[..|ds| - 1] == Digits(n / 10);
      assert ds[0] == Digits(n / 10)[0];
    } else {
      assert ds[..0] == [];
    }
  }

  lemma {:induction false} DigitRunExact(ds: seq<Ascii>, rest: seq<Ascii>)
    requires forall k :: 0 <= k < |ds| ==> IsDigit(ds[k])
    requires rest == [] || !IsDigit(rest[0])
    ensures DigitRun(ds + rest) == |ds|
  {
    if ds == [] {
      assert ds + rest == rest;
    } else {
      assert (ds + rest)[1..] == ds[1..] + rest;
      DigitRunExact(ds[1..], rest);
    }
  }

  /** What may follow a value inside a document: nothing, or a closing bracket or comma. */
  predicate Follows(rest: seq<Ascii>) {
    rest == [] || rest[0] == COMMA || rest[0] == CLOSE_ARR || rest[0] == CLOSE_OBJ
  }

  lemma NaturalRoundTrip(n: nat, rest: seq<Ascii>)
    requires Follows(rest)
    ensures ParseNatural(Digits(n) + rest) == Ok((n, rest))
  {
    var ds := Digits(n);
    var t := ds + rest;
    DigitsRoundTrip(n);
    DigitRunExact(ds, rest);
    assert t[0] == ds[0];
    assert n == 0 ==> ds == [ZERO];
    assert t[..|ds|] == ds && t[|ds|..] == rest;
  }

  lemma NegativeRoundTrip(n: nat, s: seq<Ascii>, rest: seq<Ascii>)
    requires n > 0 && Follows(rest) && s == [MINUS] + (Digits(n) + rest)
    ensures ParseValue(s) == Ok((Num(-(n as int)), rest))
  {
    NaturalRoundTrip(n, rest);
    assert s[1..] == Digits(n) + rest;
    NumberHead(s);
  }

  lemma PositiveRoundTrip(n: nat, rest: seq<Ascii>)
    requires Follows(rest)
    ensures ParseValue(Digits(n) + rest) == Ok((Num(n), rest))
  {
    NaturalRoundTrip(n, rest);
    var s := Digits(n) + rest;
    assert s[0] == Digits(n)[0] && IsDigit(s[0]);
    NumberHead(s);
  }

  /** Only a number starts with a digit or a minus sign. */
  lemma NumberHead(s: seq<Ascii>)
    requires s != [] && (IsDigit(s[0]) || s[0] == MINUS)
    ensures ParseValue(s) == ParseNumber(s)
  {
  }

  // ------------------------------------------------------------------ objects

  ghost function Pairs(v: Value, keys: seq<Text>): (pairs: seq<(Text, Value)>)
    requires v.Obj? && forall k :: k in keys ==> k in v.fields
  {
    seq(|keys|, i requires 0 <= i < |keys| => (keys[i], v.fields[keys[i]]))
  }

  ghost function Part(v: Value, keys: seq<Text>): map<Text, Value>
    requires v.Obj? && forall k :: k in keys ==> k in v.fields
  {
    map k | k in keys :: v.fields[k]
  }

  lemma NoPairs()
    ensures Unique([]) == Ok(map[])
  {
  }

  lemma UniqueMore(pairs: seq<(Text, Value)>, key: Text, value: Value, m: map<Text, Value>)
    requires Unique(pairs) == Ok(m) && key !in m
    ensures Unique(pairs + [(key, value)]) == Ok(m[key := value])
  {
    assert (pairs + [(key, value)])[..|pairs|] == pairs;
  }

  /** Reading the printed fields back rebuilds the part of the map they came from. */
  lemma {:induction false} UniquePairs(v: Value, keys: seq<Text>)
    requires v.Obj? && forall k :: k in keys ==> k in v.fields
    requires Order.Increasing(keys)
    ensures Unique(Pairs(v, keys)) == Ok(Part(v, keys))
  {
    hide Unique, Order.Less;
    var pairs := Pairs(v, keys);
    NoPairs();
    if keys == [] {
      assert pairs == [];
      assert Part(v, []) == map[];
    } else {
      var last := |keys| - 1;
      var init := keys[..last];
      assert pairs == Pairs(v, init) + [(keys[last], v.fields[keys[last]])];
      UniquePairs(v, init);
      forall i | 0 <= i < last ensures init[i] != keys[last] {
        assert Order.Less(keys[i], keys[last]);
        Order.LessIrreflexive(keys[i]);
      }
      assert keys == init + [keys[last]];
      UniqueMore(Pairs(v, init), keys[last], v.fields[keys[last]], Part(v, init));
      assert Part(v, init)[keys[last] := v.fields[keys[last]]] == Part(v, keys);
    }
  }

  lemma UniqueKeys(v: Value)
    requires v.Obj?
    ensures Unique(Pairs(v, Keys(v.fields))) == Ok(v.fields)
  {
    UniquePairs(v, Keys(v.fields));
    assert Part(v, Keys(v.fields)) == v.fields;
  }

  // ------------------------------------------------------------------ one reading step

  predicate Visible(s: seq<Ascii>) { s != [] && !IsSpace(s[0]) }

  lemma ReadWord(v: Value, rest: seq<Ascii>)
    requires v.Null? || v.Bool?
    ensures ParseValue(Print(v) + rest) == Ok((v, rest))
  {
  }

  lemma ReadString(t: Text, s: seq<Ascii>, rest: seq<Ascii>)
    requires PairedText(t) && s == [QUOTE] + (Escaped(t) + [QUOTE] + rest)
    ensures ParseValue(s) == Ok((Str(t), rest))
  {
    StringRoundTrip(t, rest);
    assert s[1..] == Escaped(t) + [QUOTE] + rest;
  }

  lemma ReadArray(items: seq<Value>, s: seq<Ascii>, body: seq<Ascii>, rest: seq<Ascii>)
    requires s == [OPEN_ARR] + body && Visible(body)
    requires if items == [] then body == [CLOSE_ARR] + rest
             else body[0] != CLOSE_ARR && ParseItems(body) == Ok((items, rest))
    ensures ParseValue(s) == Ok((Arr(items), rest))
  {
  }

  lemma ReadObject(fields: map<Text, Value>, pairs: seq<(Text, Value)>, s: seq<Ascii>, body: seq<Ascii>,
                   rest: seq<Ascii>)
    requires s == [OPEN_OBJ] + body && Visible(body) && Unique(pairs) == Ok(fields)
    requires if pairs == [] then body == [CLOSE_OBJ] + rest
             else body[0] != CLOSE_OBJ && ParseMembers(body) == Ok((pairs, rest))
    ensures ParseValue(s) == Ok((Obj(fields), rest))
  {
  }

  lemma ReadLastItem(v: Value, s: seq<Ascii>, rest: seq<Ascii>)
    requires ParseValue(s) == Ok((v, [CLOSE_ARR] + rest))
    ensures ParseItems(s) == Ok(([v], rest))
  {
  }

  lemma ReadItem(v: Value, items: seq<Value>, s: seq<Ascii>, more: seq<Ascii>, rest: seq<Ascii>)
    requires Visible(more) && ParseValue(s) == Ok((v, [COMMA] + more))
    requires ParseItems(more) == Ok((items, rest))
    ensures ParseItems(s) == Ok(([v] + items, rest))
  {
  }

  lemma ReadName(name: Text, v: Value, s: seq<Ascii>, named: seq<Ascii>, after: seq<Ascii>)
    requires PairedText(name) && Visible(named) && Visible(after)
    requires s == Quote(name) + [COLON] + named && ParseValue(named) == Ok((v, after))
    ensures after[0] == CLOSE_OBJ ==> ParseMembers(s) == Ok(([(name, v)], after[1..]))
    ensures after[0] == COMMA ==>
              ParseMembers(s) == match ParseMembers(SkipSpace(after[1..]))
                                 case Ok((members, rest)) => Ok(([(name, v)] + members, rest))
                                 case Err(e) => Err(e)
  {
    hide ParseString, ParseValue, ParseItems, Escaped, PairedText;
    assert s[1..] == Escaped(name) + [QUOTE] + ([COLON] + named);
    StringRoundTrip(name, [COLON] + named);
    assert ([COLON] + named)[1..] == named;
    assert SkipSpace(named) == named;
    assert SkipSpace(after) == after;
  }

  /** No printed value starts with whitespace or a closing bracket. */
  lemma PrintedHead(v: Value)
    ensures Print(v) != [] && !IsSpace(Print(v)[0]) && Print(v)[0] != CLOSE_ARR
  {
  }

  lemma ReadNumber(n: int, rest: seq<Ascii>)
    requires Follows(rest)
    ensures ParseValue(Print(Num(n)) + rest) == Ok((Num(n), rest))
  {
    hide ParseValue, Digits;
    if n < 0 {
      var s := Print(Num(n)) + rest;
      assert s == [MINUS] + (Digits(-n) + rest);
      NegativeRoundTrip(-n, s, rest);
    } else {
      PositiveRoundTrip(n, rest);
    }
  }

  lemma ReadText(t: Text, rest: seq<Ascii>)
    requires PairedText(t)
    ensures ParseValue(Print(Str(t)) + rest) == Ok((Str(t), rest))
  {
    hide ParseValue, Escaped;
    var s := Print(Str(t)) + rest;
    assert s == [QUOTE] + (Escaped(t) + [QUOTE] + rest);
    ReadString(t, s, rest);
  }

  /** Reading a printed value gives it back and leaves what follows it. */
  lemma {:induction false} ValueRoundTrip(v: Value, rest: seq<Ascii>)
    requires Paired(v) && Follows(rest)
    ensures ParseValue(Print(v) + rest) == Ok((v, rest))
    decreases v, 2
  {
    hide ParseValue, ParseItems, ParseMembers, Print;
    match v
    case Null => ReadWord(v, rest);
    case Bool(b) => ReadWord(v, rest);
    case Num(n) => ReadNumber(n, rest);
    case Str(t) => ReadText(t, rest);
    case Arr(items) => ArrayRoundTrip(v, rest);
    case Obj(fields) => ObjectRoundTrip(v, rest);
  }

  lemma {:induction false} ArrayRoundTrip(v: Value, rest: seq<Ascii>)
    requires v.Arr? && Paired(v)
    ensures ParseValue(Print(v) + rest) == Ok((v, rest))
    decreases v.items, 2
  {
    hide ParseValue, ParseItems, ParseMembers;
    var items := v.items;
    var body := PrintItems(items) + [CLOSE_ARR] + rest;
    if items != [] {
      ItemsRoundTrip(items, rest);
      PrintedHead(items[0]);
      assert body[0] == Print(items[0])[0];
    }
    assert Print(v) + rest == [OPEN_ARR] + body;
    ReadArray(items, Print(v) + rest, body, rest);
  }

  lemma {:induction false} ObjectRoundTrip(v: Value, rest: seq<Ascii>)
    requires v.Obj? && Paired(v)
    ensures ParseValue(Print(v) + rest) == Ok((v, rest))
    decreases v, 1
  {
    hide ParseValue, ParseItems, ParseMembers, Paired, PrintFields, Pairs;
    var keys := Keys(v.fields);
    var body := PrintFields(v, keys) + [CLOSE_OBJ] + rest;
    UniqueKeys(v);
    NoFields(v);
    if keys != [] {
      FieldsRoundTrip(v, keys, rest);
      FieldsStart(v, keys, rest);
    }
    assert Print(v) + rest == [OPEN_OBJ] + body;
    ReadObject(v.fields, Pairs(v, keys), Print(v) + rest, body, rest);
  }

  lemma {:induction false} ItemsRoundTrip(items: seq<Value>, rest: seq<Ascii>)
    requires items != [] && forall i :: 0 <= i < |items| ==> Paired(items[i])
    ensures ParseItems(PrintItems(items) + [CLOSE_ARR] + rest) == Ok((items, rest))
    decreases items, 1
  {
    hide ParseValue, ParseItems, ParseMembers, Print, Paired;
    var s := PrintItems(items) + [CLOSE_ARR] + rest;
    var head, tail := items[0], items[1..];
    assert items == [head] + tail;
    if tail == [] {
      ValueRoundTrip(head, [CLOSE_ARR] + rest);
      assert items == [head];
      assert s == Print(head) + ([CLOSE_ARR] + rest);
      ReadLastItem(head, s, rest);
    } else {
      var more := PrintItems(tail) + [CLOSE_ARR] + rest;
      ValueRoundTrip(head, [COMMA] + more);
      assert s == Print(head) + ([COMMA] + more);
      ItemsRoundTrip(tail, rest);
      PrintedHead(tail[0]);
      assert more[0] == Print(tail[0])[0];
      ReadItem(head, tail, s, more, rest);
    }
  }

  lemma NoFields(v: Value)
    requires v.Obj?
    ensures PrintFields(v, []) == [] && Pairs(v, []) == []
  {
  }

  lemma Regroup(q: seq<Ascii>, v: seq<Ascii>, more: seq<Ascii>, rest: seq<Ascii>)
    ensures q + v + [CLOSE_OBJ] + rest == q + (v + ([CLOSE_OBJ] + rest))
    ensures q + v + [COMMA] + more + [CLOSE_OBJ] + rest == q + (v + ([COMMA] + (more + [CLOSE_OBJ] + rest)))
  {
  }

  /** The first field of a printed object, and what follows its value. */
  lemma FieldsStart(v: Value, keys: seq<Text>, rest: seq<Ascii>)
    requires v.Obj? && keys != [] && forall k :: k in keys ==> k in v.fields
    ensures var more := PrintFields(v, keys[1..]) + [CLOSE_OBJ] + rest;
      var after := if keys[1..] == [] then [CLOSE_OBJ] + rest else [COMMA] + more;
      PrintFields(v, keys) + [CLOSE_OBJ] + rest == Quote(keys[0]) + [COLON] + (Print(v.fields[keys[0]]) + after)
    ensures (PrintFields(v, keys) + [CLOSE_OBJ] + rest)[0] == QUOTE
  {
    hide Print, Quote;
    var name, value, tail := Quote(keys[0]) + [COLON], Print(v.fields[keys[0]]), PrintFields(v, keys[1..]);
    QuoteStarts(keys[0]);
    Regroup(name, value, tail, rest);
    assert PrintFields(v, keys) == if |keys| == 1 then name + value else name + value + [COMMA] + tail;
    assert (PrintFields(v, keys) + [CLOSE_OBJ] + rest)[0] == name[0];
  }

  lemma QuoteStarts(name: Text)
    ensures Quote(name) != [] && Quote(name)[0] == QUOTE
  {
  }

  lemma PairsStart(v: Value, keys: seq<Text>)
    requires v.Obj? && keys != [] && forall k :: k in keys ==> k in v.fields
    ensures Pairs(v, keys) == [(keys[0], v.fields[keys[0]])] + Pairs(v, keys[1..])
  {
  }

  lemma {:induction false} FieldsRoundTrip(v: Value, keys: seq<Text>, rest: seq<Ascii>)
    requires v.Obj? && Paired(v) && keys != [] && forall k :: k in keys ==> k in v.fields
    ensures ParseMembers(PrintFields(v, keys) + [CLOSE_OBJ] + rest) == Ok((Pairs(v, keys), rest))
    decreases v, 0, |keys|
  {
    hide ParseValue, ParseItems, ParseMembers, Print, PrintFields, Pairs, Quote;
    var s := PrintFields(v, keys) + [CLOSE_OBJ] + rest;
    var key, value, tail := keys[0], v.fields[keys[0]], keys[1..];
    var more := PrintFields(v, tail) + [CLOSE_OBJ] + rest;
    var after := if tail == [] then [CLOSE_OBJ] + rest else [COMMA] + more;
    var named := Print(value) + after;
    FieldsStart(v, keys, rest);
    PairsStart(v, keys);
    NoFields(v);
    PrintedHead(value);
    assert named[0] == Print(value)[0];
    ValueRoundTrip(value, after);
    ReadName(key, value, s, named, after);
    if tail == [] {
      assert after[1..] == rest && Pairs(v, keys) == [(key, value)];
    } else {
      FieldsStart(v, tail, rest);
      FieldsRoundTrip(v, tail, rest);
      assert after[1..] == more;
    }
  }

  // ------------------------------------------------------------------ what a reader hands back

  /** A text read from a document that starts with a low surrogate was written as its escape. */
  lemma LowHead(s: seq<Ascii>)
    requires ParseString(s).Ok? && ParseString(s).value.0 != [] && IsLow(ParseString(s).value.0[0])
    ensures UnicodeAt(s) == Some(ParseString(s).value.0[0])
  {
  }

  lemma {:induction false} ReadTextIsPaired(s: seq<Ascii>)
    requires ParseString(s).Ok?
    ensures PairedText(ParseString(s).value.0)
    decreases |s|
  {
    var t := ParseString(s).value.0;
    if s[0] == QUOTE {
    } else {
      var more := if s[0] == BACKSLASH then ParseEscape(s).value.1 else s[1..];
      ReadTextIsPaired(more);
      var tail := ParseString(more).value.0;
      assert t == [t[0]] + tail;
      if tail != [] && IsHigh(t[0]) && IsLow(tail[0]) {
        LowHead(more);
        assert s[0] == BACKSLASH;
      }
    }
  }

  predicate PairedMembers(pairs: seq<(Text, Value)>) {
    forall i :: 0 <= i < |pairs| ==> PairedText(pairs[i].0) && Paired(pairs[i].1)
  }

  lemma {:induction false} UniqueIsPaired(pairs: seq<(Text, Value)>)
    requires PairedMembers(pairs) && Unique(pairs).Ok?
    ensures Paired(Obj(Unique(pairs).value))
  {
    if pairs != [] {
      UniqueIsPaired(pairs[..|pairs| - 1]);
    }
  }

  lemma {:induction false} ReadIsPaired(s: seq<Ascii>)
    requires ParseValue(s).Ok?
    ensures Paired(ParseValue(s).value.0)
    decreases |s|, 0
  {
    if s[0] == QUOTE {
      ReadTextIsPaired(s[1..]);
    } else if s[0] == OPEN_OBJ {
      var body := SkipSpace(s[1..]);
      if body[0] != CLOSE_OBJ {
        ReadMembersIsPaired(body);
        UniqueIsPaired(ParseMembers(body).value.0);
      }
    } else if s[0] == OPEN_ARR {
      var body := SkipSpace(s[1..]);
      if body[0] != CLOSE_ARR {
        ReadItemsIsPaired(body);
      }
    }
  }

  lemma {:induction false} ReadItemsIsPaired(s: seq<Ascii>)
    requires ParseItems(s).Ok?
    ensures forall i :: 0 <= i < |ParseItems(s).value.0| ==> Paired(ParseItems(s).value.0[i])
    decreases |s|, 1
  {
    ReadIsPaired(s);
    var next := SkipSpace(ParseValue(s).value.1);
    if next[0] == COMMA {
      ReadItemsIsPaired(SkipSpace(next[1..]));
    }
  }

  lemma {:induction false} ReadMembersIsPaired(s: seq<Ascii>)
    requires ParseMembers(s).Ok?
    ensures PairedMembers(ParseMembers(s).value.0)
    decreases |s|, 1
  {
    ReadTextIsPaired(s[1..]);
    var colon := SkipSpace(ParseString(s[1..]).value.1);
    var named := SkipSpace(colon[1..]);
    ReadIsPaired(named);
    var next := SkipSpace(ParseValue(named).value.1);
    if next[0] == COMMA {
      ReadMembersIsPaired(SkipSpace(next[1..]));
    }
  }

  // ------------------------------------------------------------------ the codec

  /**
   * Reading a canonical document gives back exactly the value printed if and only if no string in
   * it holds a high surrogate directly before a low one.
   */
  lemma CanonicalRoundTrip(v: Value)
    ensures Document(Canonical(v)) == Ok(v) <==> Paired(v)
  {
    hide ParseValue, Print, Paired;
    var text := Print(v);
    PrintedHead(v);
    assert SkipSpace(text) == text;
    if Paired(v) {
      ValueRoundTrip(v, []);
      assert text + [] == text;
      assert SkipSpace([]) == [];
    }
    if ParseValue(text).Ok? {
      ReadIsPaired(text);
    }
  }

  /** Two printable values with one encoding are one value. */
  lemma CanonicalInjective(v: Value, w: Value)
    requires Paired(v) && Paired(w) && Canonical(v) == Canonical(w)
    ensures v == w
  {
    CanonicalRoundTrip(v);
    CanonicalRoundTrip(w);
  }

  /** The condition is needed: one emoji and its two halves print alike. */
  lemma SplitSurrogatesCollide()
    ensures Canonical(Str([0xD83D, 0xDE00])) == Canonical(Str([0x1F600]))
    ensures !Paired(Str([0xD83D, 0xDE00])) && Paired(Str([0x1F600]))
  {
    var h, l, joined: Text := [0xD83D], [0xDE00], [0x1F600];
    assert (h + l)[1..] == l;
    assert l[1..] == [] && joined[1..] == [];
    assert Escaped(l) == EscapeCode(l[0]);
    assert Escaped(h + l) == EscapeCode(h[0]) + EscapeCode(l[0]);
    assert Escaped(joined) == EscapeCode(joined[0]);
    assert [0xD83D, 0xDE00] == h + l;
    assert IsHigh((h + l)[0]) && IsLow((h + l)[0 + 1]);
  }
}
