/** The receipt bundle: one DSSE envelope a line, each wrapping one in-toto statement. */
module Bundle {
  import opened Prelude
  import opened Json
  import opened JsonProofs
  import Base64
  import Order

  const MAX_BUNDLE := 16 * 1024 * 1024
  const MAX_LINES := 4096
  const NEWLINE: Byte := 10

  /** A digest function; nothing is assumed of it unless a lemma says so. */
  type Digest<D> = Bytes -> D

  const PAYLOAD: Text := Chars("payload")
  const PAYLOAD_TYPE: Text := Chars("payloadType")
  const SIGNATURES: Text := Chars("signatures")
  const IN_TOTO: Text := Chars("application/vnd.in-toto+json")

  function Envelope(payload: Text, signatures: seq<Value>): Value {
    Obj(map[PAYLOAD := Str(payload), PAYLOAD_TYPE := Str(IN_TOTO), SIGNATURES := Arr(signatures)])
  }

  /** `envelope_line`: one unsigned envelope, without its newline. */
  function EnvelopeLine(statement: Value): Bytes {
    Canonical(Envelope(Base64.Encode(Canonical(statement)), []))
  }

  /** `line_digest`. */
  function LineDigest<D>(statement: Value, sha: Digest<D>): D {
    sha(EnvelopeLine(statement))
  }

  /** `bundle_bytes`. */
  function BundleBytes(statements: seq<Value>): Bytes {
    if statements == [] then []
    else EnvelopeLine(statements[0]) + [NEWLINE] + BundleBytes(statements[1..])
  }

  datatype Refusal = TooLarge | NoFinalNewline | EmptyLine | LineCount | BadLine(number: nat)

  /** `load_lines`. */
  function LoadLines(raw: Bytes): Result<seq<Bytes>, Refusal> {
    if |raw| > MAX_BUNDLE then Err(TooLarge)
    else if raw == [] || raw[|raw| - 1] != NEWLINE then Err(NoFinalNewline)
    else
      var lines := Split(raw[..|raw| - 1], NEWLINE);
      if [] in lines then Err(EmptyLine) else Ok(lines)
  }

  datatype Line = Line(statement: Value, signatures: nat)

  /** What the envelope of one line must be, before its payload is looked at. */
  predicate IsEnvelope(e: Value) {
    e.Obj? && e.fields.Keys == {PAYLOAD, PAYLOAD_TYPE, SIGNATURES}
    && e.fields[PAYLOAD_TYPE] == Str(IN_TOTO) && e.fields[SIGNATURES].Arr?
  }

  /** The payload bytes of an envelope: strict base64 over ASCII text. */
  function PayloadBytes(e: Value): Option<Bytes>
    requires IsEnvelope(e)
  {
    match e.fields[PAYLOAD]
    case Str(text) =>
      if exists k :: 0 <= k < |text| && text[k] >= 128 then None else Base64.Decode(text)
    case _ => None
  }

  /** One turn of `_parse_lines`: None where it raises. */
  function ParseLine(line: Bytes): Option<Line> {
    match Document(line)
    case Err(_) => None
    case Ok(e) =>
      if !IsEnvelope(e) then None
      else
        match PayloadBytes(e)
        case None => None
        case Some(payload) =>
          match Document(payload)
          case Err(_) => None
          case Ok(content) =>
            if content.Obj? && Canonical(content) == payload && line == Canonical(e)
            then Some(Line(content, |e.fields[SIGNATURES].items|))
            else None
  }

  predicate AllParse(lines: seq<Bytes>) {
    forall k :: 0 <= k < |lines| ==> ParseLine(lines[k]).Some?
  }

  function Statements(lines: seq<Bytes>): (s: seq<Value>)
    requires AllParse(lines)
    ensures |s| == |lines|
  {
    seq(|lines|, i requires 0 <= i < |lines| => ParseLine(lines[i]).value.statement)
  }

  function SignatureCount(lines: seq<Bytes>): nat
    requires AllParse(lines)
  {
    if lines == [] then 0
    else SignatureCount(lines[..|lines| - 1]) + ParseLine(lines[|lines| - 1]).value.signatures
  }

  function Digests<D>(statements: seq<Value>, sha: Digest<D>): (d: seq<D>)
    ensures |d| == |statements|
  {
    seq(|statements|, i requires 0 <= i < |statements| => LineDigest(statements[i], sha))
  }

  function Lines(statements: seq<Value>): (l: seq<Bytes>)
    ensures |l| == |statements|
  {
    seq(|statements|, i requires 0 <= i < |statements| => EnvelopeLine(statements[i]))
  }

  /** The fields of a receipt that reading its lines fills. */
  class Receipt<D> {
    var lines: seq<Bytes>
    var statements: seq<Value>
    var digests: seq<D>
    var signatures: nat

    constructor (lines: seq<Bytes>)
      ensures this.lines == lines && statements == [] && digests == [] && signatures == 0
    {
      this.lines, statements, digests, signatures := lines, [], [], 0;
    }

    /** `_parse_lines`: every line before the first refused one leaves its statement behind. */
    method ParseLines(sha: Digest<D>) returns (refused: Option<Refusal>)
      requires statements == [] && digests == [] && signatures == 0
      modifies this`statements, this`digests, this`signatures
      ensures refused == Some(LineCount) <==> !(0 < |lines| <= 4096)
      ensures refused.None? <==> 0 < |lines| <= 4096 && AllParse(lines)
      ensures refused.None? ==> statements == Statements(lines) && digests == Digests(statements, sha)
                                && signatures == SignatureCount(lines)
      ensures refused.Some? && refused.value.BadLine? ==>
                var n := refused.value.number;
                1 <= n <= |lines| && ParseLine(lines[n - 1]).None? && AllParse(lines[..n - 1])
                && statements == Statements(lines[..n - 1]) && digests == Digests(statements, sha)
                && signatures == SignatureCount(lines[..n - 1])
      ensures refused == Some(LineCount) ==> statements == [] && digests == [] && signatures == 0
    {
      hide ParseLine, EnvelopeLine;
      if !(0 < |lines| <= MAX_LINES) {
        return Some(LineCount);
      }
      refused := None;
      for i := 0 to |lines|
        invariant AllParse(lines[..i])
        invariant statements == Statements(lines[..i]) && digests == Digests(statements, sha)
        invariant signatures == SignatureCount(lines[..i])
      {
        assert lines[..i + 1][..i] == lines[..i] && lines[..i + 1][i] == lines[i];
        match ParseLine(lines[i])
        case None => return Some(BadLine(i + 1));
        case Some(line) =>
          signatures := signatures + line.signatures;
          assert AllParse(lines[..i + 1]);
          assert Statements(lines[..i + 1]) == statements + [line.statement];
          statements := statements + [line.statement];
          digests := digests + [LineDigest(line.statement, sha)];
      }
      assert lines[..|lines|] == lines;
    }
  }

  // ------------------------------------------------------------------ printed documents are graphic

  predicate Graphic(s: seq<int>) { forall k :: 0 <= k < |s| ==> 32 <= s[k] <= 126 }

  lemma {:induction false} EscapedIsGraphic(s: Text)
    ensures Graphic(Escaped(s))
  {
    if s != [] {
      EscapedIsGraphic(s[1..]);
      assert Graphic(EscapeCode(s[0]));
    }
  }

  lemma {:induction false} PrintIsGraphic(v: Value)
    ensures Graphic(Print(v))
    decreases v, 1
  {
    hide Escaped, Keys, PrintItems, PrintFields;
    match v
    case Str(s) => EscapedIsGraphic(s);
    case Arr(items) => ItemsAreGraphic(items);
    case Obj(fields) => FieldsAreGraphic(v, Keys(fields));
    case Num(n) =>
      var ds := Digits(if n < 0 then -n else n);
      assert forall k :: 0 <= k < |ds| ==> IsDigit(ds[k]);
    case _ =>
  }

  lemma {:induction false} ItemsAreGraphic(items: seq<Value>)
    ensures Graphic(PrintItems(items))
    decreases items
  {
    if items != [] {
      PrintIsGraphic(items[0]);
      ItemsAreGraphic(items[1..]);
    }
  }

  lemma {:induction false} FieldsAreGraphic(v: Value, keys: seq<Text>)
    requires v.Obj? && forall k :: k in keys ==> k in v.fields
    ensures Graphic(PrintFields(v, keys))
    decreases v, 0, |keys|
  {
    hide Print, Escaped, Keys;
    if keys != [] {
      EscapedIsGraphic(keys[0]);
      PrintIsGraphic(v.fields[keys[0]]);
      FieldsAreGraphic(v, keys[1..]);
    }
  }

  // ------------------------------------------------------------------ the text of a line

  lemma EnvelopeKeys(payload: Text)
    ensures Keys(Envelope(payload, []).fields) == [PAYLOAD, PAYLOAD_TYPE, SIGNATURES]
  {
    var keys := [PAYLOAD, PAYLOAD_TYPE, SIGNATURES];
    assert PAYLOAD_TYPE[..7] == PAYLOAD;
    Order.PrefixIsLess(PAYLOAD, PAYLOAD_TYPE);
    assert PAYLOAD[0] == PAYLOAD_TYPE[0] < SIGNATURES[0];
    Order.SortedUnique(keys);
    assert Envelope(payload, []).fields.Keys == set k | k in keys;
  }

  lemma {:induction false} PlainEscapes(s: Text)
    requires forall k :: 0 <= k < |s| ==> 32 <= s[k] <= 126 && s[k] != QUOTE && s[k] != BACKSLASH
    ensures Escaped(s) == s
  {
    if s != [] {
      PlainEscapes(s[1..]);
      assert EscapeCode(s[0]) == [s[0]];
    }
  }

  /** The text of a written line: its three fields in order, compactly, with the statement in base64. */
  lemma LineText(statement: Value)
    ensures EnvelopeLine(statement) ==
      Chars("{\"payload\":\"") + Base64.Encode(Canonical(statement))
      + Chars("\",\"payloadType\":\"") + Chars("application/vnd.in-toto+json") + Chars("\",\"signatures\":[]}")
  {
    hide Print, Quote, Keys, Base64.Encode, Chars;
    var payload := Base64.Encode(Canonical(statement));
    PrintedEnvelope(payload);
    QuotesPlainly(payload, statement);
    Regroup([OPEN_OBJ], Quote(PAYLOAD), [COLON], [QUOTE], payload, [COMMA], Quote(PAYLOAD_TYPE), IN_TOTO,
            Quote(SIGNATURES), [OPEN_ARR, CLOSE_ARR], [CLOSE_OBJ]);
    Pieces();
  }

  lemma QuotesPlainly(payload: Text, statement: Value)
    requires payload == Base64.Encode(Canonical(statement))
    ensures Quote(payload) == [QUOTE] + payload + [QUOTE] && Quote(IN_TOTO) == [QUOTE] + IN_TOTO + [QUOTE]
    ensures Quote(PAYLOAD) == [QUOTE] + PAYLOAD + [QUOTE]
    ensures Quote(PAYLOAD_TYPE) == [QUOTE] + PAYLOAD_TYPE + [QUOTE]
    ensures Quote(SIGNATURES) == [QUOTE] + SIGNATURES + [QUOTE]
  {
    hide Escaped, Base64.Encode, Canonical;
    Base64.EncodeIsGraphic(Canonical(statement));
    PlainEscapes(payload);
    PlainEscapes(PAYLOAD);
    PlainEscapes(PAYLOAD_TYPE);
    PlainEscapes(SIGNATURES);
    PlainEscapes(IN_TOTO);
  }

  lemma PrintedEnvelope(payload: Text)
    ensures Print(Envelope(payload, [])) ==
      [OPEN_OBJ] + (Quote(PAYLOAD) + [COLON] + Quote(payload)) + [COMMA]
      + (Quote(PAYLOAD_TYPE) + [COLON] + Quote(IN_TOTO)) + [COMMA]
      + (Quote(SIGNATURES) + [COLON] + [OPEN_ARR, CLOSE_ARR]) + [CLOSE_OBJ]
  {
    hide Quote, Keys, PrintItems, PrintFields;
    var e := Envelope(payload, []);
    EnvelopeKeys(payload);
    FieldsDiffer();
    PrintThree(e, PAYLOAD, PAYLOAD_TYPE, SIGNATURES);
    PrintNoItems();
    assert Print(Str(payload)) == Quote(payload) && Print(Str(IN_TOTO)) == Quote(IN_TOTO);
  }

  lemma FieldsDiffer()
    ensures PAYLOAD != PAYLOAD_TYPE && PAYLOAD != SIGNATURES && PAYLOAD_TYPE != SIGNATURES
  {
  }

  lemma PrintNoItems()
    ensures Print(Arr([])) == [OPEN_ARR, CLOSE_ARR]
  {
    assert PrintItems([]) == [];
  }

  /** What stands before, between and after the payload and its type. */
  lemma Pieces()
    ensures [OPEN_OBJ] + ([QUOTE] + PAYLOAD + [QUOTE]) + [COLON] + [QUOTE] == Chars("{\"payload\":\"")
    ensures [QUOTE] + [COMMA] + ([QUOTE] + PAYLOAD_TYPE + [QUOTE]) + [COLON] + [QUOTE] == Chars("\",\"payloadType\":\"")
    ensures [QUOTE] + [COMMA] + ([QUOTE] + SIGNATURES + [QUOTE]) + [COLON] + [OPEN_ARR, CLOSE_ARR] + [CLOSE_OBJ] ==
            Chars("\",\"signatures\":[]}")
  {
  }

  lemma Regroup(o: Text, n1: Text, k: Text, q: Text, p: Text, m: Text, n2: Text, t: Text, n3: Text, a: Text, c: Text)
    ensures o + (n1 + k + (q + p + q)) + m + (n2 + k + (q + t + q)) + m + (n3 + k + a) + c ==
            (o + n1 + k + q) + p + (q + m + n2 + k + q) + t + (q + m + n3 + k + a + c)
  {
  }

  lemma PrintThree(v: Value, a: Text, b: Text, c: Text)
    requires v.Obj? && Keys(v.fields) == [a, b, c] && a in v.fields && b in v.fields && c in v.fields
    ensures Print(v) == [OPEN_OBJ] + (Quote(a) + [COLON] + Print(v.fields[a])) + [COMMA]
      + (Quote(b) + [COLON] + Print(v.fields[b])) + [COMMA] + (Quote(c) + [COLON] + Print(v.fields[c])) + [CLOSE_OBJ]
  {
    hide Quote, Keys;
    var third := Quote(c) + [COLON] + Print(v.fields[c]);
    var second := Quote(b) + [COLON] + Print(v.fields[b]);
    assert PrintFields(v, [c]) == third;
    assert [b, c][1..] == [c] && [a, b, c][1..] == [b, c];
    assert PrintFields(v, [b, c]) == second + [COMMA] + third;
    assert PrintFields(v, [a, b, c]) ==
      Quote(a) + [COLON] + Print(v.fields[a]) + [COMMA] + (second + [COMMA] + third);
    Nested([OPEN_OBJ], Quote(a) + [COLON] + Print(v.fields[a]), [COMMA], second, third, [CLOSE_OBJ]);
  }

  lemma Nested(o: Text, x: Text, m: Text, y: Text, z: Text, c: Text)
    ensures o + (x + m + (y + m + z)) + c == o + x + m + y + m + z + c
  {
  }

  // ------------------------------------------------------------------ loading

  lemma LineIsWhole(statement: Value)
    ensures EnvelopeLine(statement) != [] && NEWLINE !in EnvelopeLine(statement)
  {
    hide Print;
    var e := Envelope(Base64.Encode(Canonical(statement)), []);
    PrintIsGraphic(e);
    PrintedHead(e);
  }

  lemma {:induction false} BundleIsJoin(statements: seq<Value>)
    requires statements != []
    ensures BundleBytes(statements) == Join(Lines(statements), NEWLINE) + [NEWLINE]
  {
    hide EnvelopeLine;
    var lines := Lines(statements);
    if |statements| == 1 {
      assert BundleBytes(statements[1..]) == [];
      assert lines == [EnvelopeLine(statements[0])];
    } else {
      BundleIsJoin(statements[1..]);
      assert lines[1..] == Lines(statements[1..]);
    }
  }

  /** A written bundle loads, within the size limit and only then, as its own lines. */
  lemma LoadWritten(statements: seq<Value>)
    requires statements != []
    ensures |BundleBytes(statements)| <= 16_777_216 ==> LoadLines(BundleBytes(statements)) == Ok(Lines(statements))
    ensures |BundleBytes(statements)| > 16_777_216 ==> LoadLines(BundleBytes(statements)) == Err(TooLarge)
  {
    var raw, lines := BundleBytes(statements), Lines(statements);
    BundleIsJoin(statements);
    forall k | 0 <= k < |lines| ensures NEWLINE !in lines[k] && lines[k] != [] {
      LineIsWhole(statements[k]);
    }
    SplitJoin(lines, NEWLINE);
    assert raw[..|raw| - 1] == Join(lines, NEWLINE);
  }

  /**
   * What loads: nonempty lines, each ended by a newline, of at most 16 MiB in all; and why anything
   * else does not.
   */
  lemma LoadsExactly(raw: Bytes, lines: seq<Bytes>)
    ensures LoadLines(raw) == Ok(lines) <==>
      && |raw| <= 16_777_216 && lines != [] && raw == Join(lines, 10) + [10]
      && forall k :: 0 <= k < |lines| ==> lines[k] != [] && 10 !in lines[k]
    ensures LoadLines(raw) == Err(TooLarge) <==> |raw| > 16_777_216
    ensures LoadLines(raw) == Err(NoFinalNewline) <==> |raw| <= 16_777_216 && (raw == [] || raw[|raw| - 1] != 10)
    ensures LoadLines(raw) != Err(LineCount) && forall n :: LoadLines(raw) != Err(BadLine(n))
  {
    hide Split, Join;
    if raw != [] && raw[|raw| - 1] == NEWLINE {
      var body := raw[..|raw| - 1];
      JoinSplit(body, NEWLINE);
      assert raw == body + [NEWLINE];
      var parts := Split(body, NEWLINE);
      assert [] in parts <==> exists k :: 0 <= k < |parts| && parts[k] == [];
    }
    if lines != [] && raw == Join(lines, NEWLINE) + [NEWLINE] && forall k :: 0 <= k < |lines| ==> NEWLINE !in lines[k] {
      SplitJoin(lines, NEWLINE);
      assert raw[..|raw| - 1] == Join(lines, NEWLINE);
    }
  }

  // ------------------------------------------------------------------ one line

  lemma EnvelopeIsPaired(payload: Bytes, signatures: seq<Value>)
    requires forall k :: 0 <= k < |payload| ==> payload[k] < 128
    requires forall k :: 0 <= k < |signatures| ==> Paired(signatures[k])
    ensures Paired(Envelope(payload, signatures))
  {
  }

  /** The reader takes a written line back exactly when its statement is an object free of split pairs. */
  lemma WrittenLineParses(statement: Value)
    ensures ParseLine(EnvelopeLine(statement)) == Some(Line(statement, 0))
            <==> statement.Obj? && Paired(statement)
  {
    hide Print, ParseValue, Paired, Document;
    var payload := Canonical(statement);
    var text := Base64.Encode(payload);
    var e := Envelope(text, []);
    Base64.EncodeIsGraphic(payload);
    Base64.DecodeEncode(payload);
    EnvelopeIsPaired(text, []);
    CanonicalRoundTrip(e);
    CanonicalRoundTrip(statement);
    assert IsEnvelope(e) && PayloadBytes(e) == Some(payload);
  }

  /**
   * What an accepted line fixes: its payload is the canonical encoding of its statement, and the
   * line is the statement's own unsigned line, the one its digest names, exactly when it carries no
   * signatures and its base64 drops no set bit.
   */
  lemma AcceptedLine(line: Bytes) returns (payload: Bytes, signatures: seq<Value>)
    requires ParseLine(line).Some?
    ensures var statement := ParseLine(line).value.statement;
            && statement.Obj? && line == Canonical(Envelope(payload, signatures))
            && |signatures| == ParseLine(line).value.signatures
            && Base64.Decode(payload) == Some(Canonical(statement))
            && (line == EnvelopeLine(statement) <==> signatures == [] && Base64.PadBitsZero(payload))
  {
    hide Print, ParseValue, Paired, Document;
    var e := Document(line).value;
    var statement := ParseLine(line).value.statement;
    var text := e.fields[PAYLOAD].s;
    payload, signatures := text, e.fields[SIGNATURES].items;
    assert e == Envelope(text, signatures) by {
      assert e.fields == Envelope(text, signatures).fields;
    }
    var own := Base64.Encode(Canonical(statement));
    Base64.EncodeDecode(payload);
    Base64.EncodeIsGraphic(Canonical(statement));
    EnvelopeIsPaired(own, []);
    CanonicalRoundTrip(e);
    if line == EnvelopeLine(statement) {
      CanonicalInjective(e, Envelope(own, []));
      assert e.fields[PAYLOAD] == Str(own) && e.fields[SIGNATURES] == Arr([]);
    }
  }

  // ------------------------------------------------------------------ the whole bundle

  /** Every statement of a list is an object whose strings hold no split surrogate pair. */
  predicate Writable(statements: seq<Value>) {
    forall k :: 0 <= k < |statements| ==> statements[k].Obj? && Paired(statements[k])
  }

  /**
   * The codec round trip: a nonempty bundle within the limits loads as one line a statement, and
   * parsing those lines yields exactly the statements written if and only if they are writable;
   * every digest is then the digest of the line itself, and no line is signed.
   */
  lemma BundleRoundTrip<D>(statements: seq<Value>, sha: Digest<D>)
    requires 0 < |statements| <= 4096 && |BundleBytes(statements)| <= 16_777_216
    ensures LoadLines(BundleBytes(statements)) == Ok(Lines(statements))
    ensures AllParse(Lines(statements)) && Statements(Lines(statements)) == statements
              && SignatureCount(Lines(statements)) == 0
            <==> Writable(statements)
    ensures forall k :: 0 <= k < |statements| ==>
              Digests(statements, sha)[k] == sha(Lines(statements)[k])
  {
    hide ParseLine, EnvelopeLine, Paired;
    LoadWritten(statements);
    var lines := Lines(statements);
    forall k | 0 <= k < |statements|
      ensures ParseLine(lines[k]) == Some(Line(statements[k], 0))
              <==> statements[k].Obj? && Paired(statements[k])
    {
      WrittenLineParses(statements[k]);
    }
    if AllParse(lines) {
      UnsignedCount(lines);
      if SignatureCount(lines) == 0 && Statements(lines) == statements {
        forall k | 0 <= k < |lines| ensures ParseLine(lines[k]) == Some(Line(statements[k], 0)) {
          assert Statements(lines)[k] == statements[k];
        }
      }
    }
    if Writable(statements) {
      assert Statements(lines) == statements;
    }
  }

  lemma {:induction false} UnsignedCount(lines: seq<Bytes>)
    requires AllParse(lines)
    ensures SignatureCount(lines) == 0 <==>
            forall k :: 0 <= k < |lines| ==> ParseLine(lines[k]).value.signatures == 0
  {
    hide ParseLine;
    if lines != [] {
      var init, last := lines[..|lines| - 1], |lines| - 1;
      assert AllParse(init) by { assert forall k :: 0 <= k < last ==> init[k] == lines[k]; }
      UnsignedCount(init);
      assert forall k :: 0 <= k < last ==> init[k] == lines[k];
    }
  }
}
