/** Printing INSERT EDGE statements, and reading them back. */
module NgqlText {
  import opened EdgeRecords
  import opened Options
  import opened TextOps

  // ---------------------------------------------------------------------------
  // Printing
  // ---------------------------------------------------------------------------

  /** Python's `replace` of one character. */
  function ReplaceChar(s: string, c: char, text: string): string {
    if s == "" then "" else (if s[0] == c then text else [s[0]]) + ReplaceChar(s[1..], c, text)
  }

  /** The loader's escaping: five passes over the whole text. */
  function Escape(s: string): string {
    ReplaceChar(ReplaceChar(ReplaceChar(ReplaceChar(ReplaceChar(s,
      '\\', "\\\\"), '"', "\\\""), '\r', "\\r"), '\n', "\\n"), '\t', "\\t")
  }

  function NgqlString(s: string): string { "\"" + Escape(s) + "\"" }

  function StripTail(s: string, c: char): string {
    if s != "" && s[|s| - 1] == c then StripTail(s[..|s| - 1], c) else s
  }

  /** The last `width` decimal digits of `n`, with leading zeros. */
  function Padded(n: nat, width: nat): (s: string)
    ensures |s| == width && forall c | c in s :: IsDigit(c)
  {
    if width == 0 then "" else Padded(n / 10, width - 1) + [DigitChar(n % 10)]
  }

  const MILLION := 1_000_000

  /** Six decimals without trailing zeros, nor a trailing point. */
  function UnsignedText(micro: nat): string {
    StripTail(StripTail(Decimal(micro / MILLION) + "." + Padded(micro % MILLION, 6), '0'), '.')
  }

  function FloatText(micro: int): string {
    if micro < 0 then "-" + UnsignedText(-micro) else UnsignedText(micro)
  }

  function NgqlValue(v: Value): string {
    match v
    case Bool(b) => if b then "true" else "false"
    case Int(n) => Signed(n)
    case Float(micro) => FloatText(micro)
    case Str(s) => NgqlString(s)
  }

  function Join(parts: seq<string>): string {
    if parts == [] then ""
    else if |parts| == 1 then parts[0]
    else parts[0] + "," + Join(parts[1..])
  }

  function Values(properties: Properties): seq<string> {
    seq(|properties|, i requires 0 <= i < |properties| => NgqlValue(properties[i].1))
  }

  function Names(properties: Properties): seq<string> {
    seq(|properties|, i requires 0 <= i < |properties| => properties[i].0)
  }

  function RowText(r: EdgeRecord): string {
    NgqlString(r.source) + "->" + NgqlString(r.target) + "@" + Signed(r.rank) + ":(" + Join(Values(r.properties)) + ")"
  }

  function EdgeStatement(edgeType: string, rows: seq<EdgeRecord>): string {
    if rows == [] then ""
    else
      "INSERT EDGE " + edgeType + "(" + Join(Names(rows[0].properties)) + ") VALUES "
      + Join(seq(|rows|, i requires 0 <= i < |rows| => RowText(rows[i]))) + ";"
  }

  // ---------------------------------------------------------------------------
  // Escaping in one pass, and back
  // ---------------------------------------------------------------------------

  function EscapeChar(c: char): string {
    match c
    case '\\' => "\\\\"
    case '"' => "\\\""
    case '\r' => "\\r"
    case '\n' => "\\n"
    case '\t' => "\\t"
    case _ => [c]
  }

  function EscapeOnce(s: string): string {
    if s == "" then "" else EscapeChar(s[0]) + EscapeOnce(s[1..])
  }

  lemma {:induction false} ReplaceConcat(a: string, b: string, c: char, text: string)
    ensures ReplaceChar(a + b, c, text) == ReplaceChar(a, c, text) + ReplaceChar(b, c, text)
  {
    if a == "" {
      assert a + b == b;
    } else {
      var head, x, y := if a[0] == c then text else [a[0]], ReplaceChar(a[1..], c, text), ReplaceChar(b, c, text);
      ReplaceConcat(a[1..], b, c, text);
      assert (a + b)[1..] == a[1..] + b && (a + b)[0] == a[0];
      assert head + (x + y) == head + x + y;
    }
  }

  lemma EscapeConcat(a: string, b: string)
    ensures Escape(a + b) == Escape(a) + Escape(b)
  {
    hide ReplaceChar;
    ReplaceConcat(a, b, '\\', "\\\\");
    var a1, b1 := ReplaceChar(a, '\\', "\\\\"), ReplaceChar(b, '\\', "\\\\");
    ReplaceConcat(a1, b1, '"', "\\\"");
    var a2, b2 := ReplaceChar(a1, '"', "\\\""), ReplaceChar(b1, '"', "\\\"");
    ReplaceConcat(a2, b2, '\r', "\\r");
    var a3, b3 := ReplaceChar(a2, '\r', "\\r"), ReplaceChar(b2, '\r', "\\r");
    ReplaceConcat(a3, b3, '\n', "\\n");
    ReplaceConcat(ReplaceChar(a3, '\n', "\\n"), ReplaceChar(b3, '\n', "\\n"), '\t', "\\t");
  }

  lemma ReplaceOne(x: char, c: char, text: string)
    ensures ReplaceChar([x], c, text) == if x == c then text else [x]
  {
    assert [x][1..] == "";
  }

  lemma ReplaceTwo(x: char, y: char, c: char, text: string)
    requires x != c && y != c
    ensures ReplaceChar([x, y], c, text) == [x, y]
  {
    assert [x, y] == [x] + [y];
    ReplaceConcat([x], [y], c, text);
    ReplaceOne(x, c, text);
    ReplaceOne(y, c, text);
  }

  lemma EscapeOfChar(c: char)
    ensures Escape([c]) == EscapeChar(c)
  {
    hide ReplaceChar;
    ReplaceOne(c, '\\', "\\\\");
    ReplaceOne(c, '"', "\\\"");
    ReplaceOne(c, '\r', "\\r");
    ReplaceOne(c, '\n', "\\n");
    ReplaceOne(c, '\t', "\\t");
    ReplaceTwo('\\', '\\', '"', "\\\"");
    ReplaceTwo('\\', '\\', '\r', "\\r");
    ReplaceTwo('\\', '\\', '\n', "\\n");
    ReplaceTwo('\\', '\\', '\t', "\\t");
    ReplaceTwo('\\', '"', '\r', "\\r");
    ReplaceTwo('\\', '"', '\n', "\\n");
    ReplaceTwo('\\', '"', '\t', "\\t");
    ReplaceTwo('\\', 'r', '\n', "\\n");
    ReplaceTwo('\\', 'r', '\t', "\\t");
    ReplaceTwo('\\', 'n', '\t', "\\t");
  }

  /** The five passes amount to one invertible character map. */
  lemma {:induction false} EscapeInOnePass(s: string)
    ensures Escape(s) == EscapeOnce(s)
  {
    hide Escape;
    if s == "" {
      EscapeOfNone();
    } else {
      assert s == [s[0]] + s[1..];
      EscapeConcat([s[0]], s[1..]);
      EscapeOfChar(s[0]);
      EscapeInOnePass(s[1..]);
    }
  }

  lemma EscapeOfNone()
    ensures Escape("") == ""
  {
  }

  // ---------------------------------------------------------------------------
  // Reading
  // ---------------------------------------------------------------------------

  /** A value and the text after it. */
  type Parsed<T> = Option<(T, string)>

  function Expect(s: string, token: string): Option<string> {
    if |token| <= |s| && s[..|token|] == token then Some(s[|token|..]) else None
  }

  lemma ExpectHere(token: string, rest: string)
    ensures Expect(token + rest, token) == Some(rest)
  {
    assert (token + rest)[..|token|] == token && (token + rest)[|token|..] == rest;
  }

  function Unescaped(c: char): Option<char> {
    match c
    case '\\' => Some('\\')
    case '"' => Some('"')
    case 'r' => Some('\r')
    case 'n' => Some('\n')
    case 't' => Some('\t')
    case _ => None
  }

  /** The text up to the closing quote. */
  function ReadQuoted(s: string): Parsed<string> {
    if s == "" then None
    else if s[0] == '"' then Some(("", s[1..]))
    else if s[0] != '\\' then Prepend(s[0], ReadQuoted(s[1..]))
    else if |s| < 2 || Unescaped(s[1]).None? then None
    else Prepend(Unescaped(s[1]).value, ReadQuoted(s[2..]))
  }

  function Prepend(c: char, r: Parsed<string>): Parsed<string> {
    if r.None? then None else Some(([c] + r.value.0, r.value.1))
  }

  function ReadString(s: string): Parsed<string> {
    if s != "" && s[0] == '"' then ReadQuoted(s[1..]) else None
  }

  function DigitRun(s: string): (n: nat)
    ensures n <= |s| && forall c | c in s[..n] :: IsDigit(c)
  {
    if s != "" && IsDigit(s[0]) then
      assert s[..1 + DigitRun(s[1..])] == [s[0]] + s[1..][..DigitRun(s[1..])];
      1 + DigitRun(s[1..])
    else 0
  }

  function ReadNat(s: string): Parsed<nat> {
    var n := DigitRun(s);
    if n == 0 then None else Some((DigitsValue(s[..n]), s[n..]))
  }

  function ReadInt(s: string): Parsed<int> {
    if s != "" && s[0] == '-' then
      var r := ReadNat(s[1..]);
      if r.None? then None else Some((0 - r.value.0, r.value.1))
    else
      var r := ReadNat(s);
      if r.None? then None else Some((r.value.0 as int, r.value.1))
  }

  function PowerOfTen(n: nat): nat { if n == 0 then 1 else 10 * PowerOfTen(n - 1) }

  /** Digits after the point, in millionths; at most six of them. */
  function ReadFraction(s: string): Parsed<nat> {
    if s == "" || s[0] != '.' then Some((0, s))
    else
      var n := DigitRun(s[1..]);
      if n == 0 || n > 6 then None
      else Some((DigitsValue(s[1..][..n]) * PowerOfTen(6 - n), s[1..][n..]))
  }

  function ReadUnsigned(s: string): Parsed<nat> {
    var whole := ReadNat(s);
    if whole.None? then None
    else
      var fraction := ReadFraction(whole.value.1);
      if fraction.None? then None
      else Some((whole.value.0 * MILLION + fraction.value.0, fraction.value.1))
  }

  function ReadFloat(s: string): Parsed<int> {
    if s != "" && s[0] == '-' then
      var r := ReadUnsigned(s[1..]);
      if r.None? then None else Some((0 - r.value.0, r.value.1))
    else
      var r := ReadUnsigned(s);
      if r.None? then None else Some((r.value.0 as int, r.value.1))
  }

  /** The column types of an edge type's properties. */
  datatype Kind = BoolKind | IntKind | FloatKind | StrKind

  function KindOf(v: Value): Kind {
    match v
    case Bool(_) => BoolKind
    case Int(_) => IntKind
    case Float(_) => FloatKind
    case Str(_) => StrKind
  }

  function Wrap<A, B>(r: Parsed<A>, f: A -> B): Parsed<B> {
    if r.None? then None else Some((f(r.value.0), r.value.1))
  }

  function ReadBool(s: string): Parsed<bool> {
    if Expect(s, "true").Some? then Some((true, Expect(s, "true").value))
    else if Expect(s, "false").Some? then Some((false, Expect(s, "false").value))
    else None
  }

  function ReadValue(kind: Kind, s: string): Parsed<Value> {
    match kind
    case BoolKind => Wrap(ReadBool(s), (b: bool) => Bool(b))
    case IntKind => Wrap(ReadInt(s), (n: int) => Int(n))
    case FloatKind => Wrap(ReadFloat(s), (n: int) => Float(n))
    case StrKind => Wrap(ReadString(s), (t: string) => Str(t))
  }

  // ---------------------------------------------------------------------------
  // Values read back
  // ---------------------------------------------------------------------------

  /** The text after a value cannot continue a number. */
  ghost predicate Ends(rest: string) {
    rest != "" ==> !IsDigit(rest[0]) && rest[0] != '.'
  }

  /** Reading undoes the escaping of one character. */
  lemma CharReadsBack(c: char, tail: string)
    ensures ReadQuoted(EscapeChar(c) + tail) == Prepend(c, ReadQuoted(tail))
  {
    hide Prepend;
    var s := EscapeChar(c) + tail;
    if |EscapeChar(c)| == 1 {
      assert s[0] == c && s[1..] == tail;
    } else {
      assert s[0] == '\\' && s[1] == EscapeChar(c)[1] && s[2..] == tail;
    }
  }

  lemma {:induction false} QuotedReadsBack(t: string, rest: string)
    ensures ReadQuoted(EscapeOnce(t) + "\"" + rest) == Some((t, rest))
  {
    hide EscapeChar, ReadQuoted;
    if t == "" {
      QuoteEnds(rest);
      assert EscapeOnce(t) + "\"" + rest == "\"" + rest;
    } else {
      var tail := EscapeOnce(t[1..]) + "\"" + rest;
      QuotedReadsBack(t[1..], rest);
      CharReadsBack(t[0], tail);
      assert EscapeOnce(t) + "\"" + rest == EscapeChar(t[0]) + tail;
      assert t == [t[0]] + t[1..];
    }
  }

  lemma QuoteEnds(rest: string)
    ensures ReadQuoted("\"" + rest) == Some(("", rest))
  {
    assert ("\"" + rest)[1..] == rest;
  }

  lemma StringReadsBack(t: string, rest: string)
    ensures ReadString(NgqlString(t) + rest) == Some((t, rest))
  {
    EscapeInOnePass(t);
    QuotedReadsBack(t, rest);
    assert (NgqlString(t) + rest)[1..] == EscapeOnce(t) + "\"" + rest;
  }

  lemma {:induction false} DigitRunIs(digits: string, rest: string)
    requires forall c | c in digits :: IsDigit(c)
    requires rest != "" ==> !IsDigit(rest[0])
    ensures DigitRun(digits + rest) == |digits|
  {
    if digits == "" {
      assert digits + rest == rest;
    } else {
      assert digits[0] in digits;
      DigitRunIs(digits[1..], rest);
      assert (digits + rest)[1..] == digits[1..] + rest;
    }
  }

  lemma NatReadsBack(n: nat, rest: string)
    requires rest != "" ==> !IsDigit(rest[0])
    ensures ReadNat(Decimal(n) + rest) == Some((n, rest))
  {
    DecimalDigits(n);
    DigitRunIs(Decimal(n), rest);
    assert (Decimal(n) + rest)[..|Decimal(n)|] == Decimal(n);
    assert (Decimal(n) + rest)[|Decimal(n)|..] == rest;
  }

  lemma StartsWithDigit(n: nat, rest: string)
    ensures IsDigit((Decimal(n) + rest)[0])
  {
    DecimalDigits(n);
    assert Decimal(n)[0] in Decimal(n);
  }

  lemma IntReadsBack(n: int, rest: string)
    requires rest != "" ==> !IsDigit(rest[0])
    ensures ReadInt(Signed(n) + rest) == Some((n, rest))
  {
    hide Decimal, ReadNat;
    if n < 0 {
      NatReadsBack(-n, rest);
      assert (Signed(n) + rest)[1..] == Decimal(-n) + rest;
    } else {
      NatReadsBack(n, rest);
      StartsWithDigit(n, rest);
    }
  }

  lemma {:induction false} StripTailAfter(a: string, b: string, c: char)
    requires a != "" && a[|a| - 1] != c
    ensures StripTail(a + b, c) == a + StripTail(b, c)
  {
    if b != "" && b[|b| - 1] == c {
      StripTailAfter(a, b[..|b| - 1], c);
      assert (a + b)[..|a + b| - 1] == a + b[..|b| - 1];
    }
  }

  lemma {:induction false} PaddedValue(n: nat, width: nat)
    requires n < PowerOfTen(width)
    ensures DigitsValue(Padded(n, width)) == n
  {
    if width > 0 {
      PaddedValue(n / 10, width - 1);
      assert Padded(n, width)[..width - 1] == Padded(n / 10, width - 1);
    }
  }

  /** Dropping trailing zeros scales the value by a power of ten. */
  lemma {:induction false} StripZeros(digits: string)
    requires forall c | c in digits :: IsDigit(c)
    ensures var kept := StripTail(digits, '0');
            && |kept| <= |digits| && (forall c | c in kept :: IsDigit(c))
            && DigitsValue(digits) == DigitsValue(kept) * PowerOfTen(|digits| - |kept|)
            && (kept != "" ==> kept[|kept| - 1] != '0')
  {
    if digits != "" && digits[|digits| - 1] == '0' {
      var before := digits[..|digits| - 1];
      StripZeros(before);
      var kept := StripTail(before, '0');
      ShiftPower(DigitsValue(kept), |before| - |kept|);
    }
  }

  lemma ShiftPower(value: nat, n: nat)
    ensures 10 * (value * PowerOfTen(n)) == value * PowerOfTen(n + 1)
  {
  }

  /** The printed fraction, and what it is worth. */
  lemma UnsignedShape(micro: nat) returns (fraction: string)
    ensures |fraction| <= 6 && forall c | c in fraction :: IsDigit(c)
    ensures fraction != "" ==> fraction[|fraction| - 1] != '0'
    ensures DigitsValue(fraction) * PowerOfTen(6 - |fraction|) == micro % MILLION
    ensures UnsignedText(micro) == Decimal(micro / MILLION) + if fraction == "" then "" else "." + fraction
  {
    hide Decimal, DigitsValue;
    var whole, padded := Decimal(micro / MILLION), Padded(micro % MILLION, 6);
    fraction := StripTail(padded, '0');
    SixDigits();
    PaddedValue(micro % MILLION, 6);
    StripZeros(padded);
    StripTailAfter(whole + ".", padded, '0');
    DecimalDigits(micro / MILLION);
    assert whole[|whole| - 1] in whole;
    if fraction == "" {
      StripTailAfter(whole, ".", '.');
      assert whole + "." + fraction == whole + ".";
      PointAlone();
    } else {
      assert fraction[|fraction| - 1] in fraction;
      var text := whole + "." + fraction;
      assert text[|text| - 1] == fraction[|fraction| - 1];
      assert text == whole + ("." + fraction);
    }
  }

  lemma SixDigits()
    ensures PowerOfTen(6) == MILLION
  {
    assert PowerOfTen(2) == 100;
    assert PowerOfTen(4) == 10_000;
  }

  lemma PointAlone()
    ensures StripTail(".", '.') == ""
  {
    assert "."[..0] == "";
  }

  lemma NoFraction(rest: string)
    requires Ends(rest)
    ensures ReadFraction(rest) == Some((0, rest))
  {
  }

  lemma PointThenDigits(t: string, n: nat)
    requires DigitRun(t) == n && 0 < n <= 6
    ensures ReadFraction("." + t) == Some((DigitsValue(t[..n]) * PowerOfTen(6 - n), t[n..]))
  {
    hide PowerOfTen, DigitRun, DigitsValue;
    assert ("." + t)[1..] == t;
  }

  lemma SplitBack(a: string, b: string)
    ensures (a + b)[..|a|] == a && (a + b)[|a|..] == b
  {
  }

  lemma FractionReadsBack(fraction: string, rest: string)
    requires |fraction| <= 6 && (forall c | c in fraction :: IsDigit(c)) && Ends(rest)
    ensures ReadFraction((if fraction == "" then "" else "." + fraction) + rest)
         == Some((DigitsValue(fraction) * PowerOfTen(6 - |fraction|), rest))
  {
    hide PowerOfTen, DigitRun, DigitsValue, ReadFraction;
    if fraction == "" {
      NoDigits();
      NoFraction(rest);
      assert "" + rest == rest;
    } else {
      DigitRunIs(fraction, rest);
      SplitBack(fraction, rest);
      PointThenDigits(fraction + rest, |fraction|);
      assert "." + fraction + rest == "." + (fraction + rest);
    }
  }

  lemma NoDigits()
    ensures DigitsValue("") == 0
  {
  }

  lemma UnsignedReadsBack(micro: nat, rest: string)
    requires Ends(rest)
    ensures ReadUnsigned(UnsignedText(micro) + rest) == Some((micro, rest))
    ensures IsDigit((UnsignedText(micro) + rest)[0])
  {
    hide Decimal, DigitsValue, PowerOfTen, ReadNat, ReadFraction, UnsignedText;
    var fraction := UnsignedShape(micro);
    var tail := (if fraction == "" then "" else "." + fraction) + rest;
    assert UnsignedText(micro) + rest == Decimal(micro / MILLION) + tail;
    NatReadsBack(micro / MILLION, tail);
    FractionReadsBack(fraction, rest);
    StartsWithDigit(micro / MILLION, tail);
  }

  lemma FloatReadsBack(micro: int, rest: string)
    requires Ends(rest)
    ensures ReadFloat(FloatText(micro) + rest) == Some((micro, rest))
  {
    hide UnsignedText, ReadUnsigned;
    if micro < 0 {
      UnsignedReadsBack(-micro, rest);
      assert (FloatText(micro) + rest)[1..] == UnsignedText(-micro) + rest;
    } else {
      UnsignedReadsBack(micro, rest);
    }
  }

  /** Every property value is recovered from its printed form. */
  lemma ValueReadsBack(v: Value, rest: string)
    requires Ends(rest)
    ensures ReadValue(KindOf(v), NgqlValue(v) + rest) == Some((v, rest))
  {
    hide ReadInt, ReadFloat, ReadString, FloatText, Signed, NgqlString;
    match v
    case Bool(b) =>
      ExpectHere("true", rest);
      ExpectHere("false", rest);
      assert ("false" + rest)[0] == 'f';
    case Int(n) => IntReadsBack(n, rest);
    case Float(micro) => FloatReadsBack(micro, rest);
    case Str(t) => StringReadsBack(t, rest);
  }

  // ---------------------------------------------------------------------------
  // Whole statements
  // ---------------------------------------------------------------------------

  function ReadValues(kinds: seq<Kind>, s: string): Parsed<seq<Value>> {
    if kinds == [] then Some(([], s))
    else
      var (v, rest) :- ReadValue(kinds[0], s);
      if |kinds| == 1 then Some(([v], rest))
      else
        var afterComma :- Expect(rest, ",");
        var (more, end) :- ReadValues(kinds[1..], afterComma);
        Some(([v] + more, end))
  }

  predicate IsNameChar(c: char) { c != ',' && c != '(' && c != ')' }

  ghost predicate IsName(s: string) { s != "" && forall c | c in s :: IsNameChar(c) }

  function NameRun(s: string): (n: nat)
    ensures n <= |s|
  {
    if s != "" && IsNameChar(s[0]) then 1 + NameRun(s[1..]) else 0
  }

  function ReadNames(s: string): Parsed<seq<string>>
    decreases |s|
  {
    var n := NameRun(s);
    if n == 0 then Some(([], s))
    else if n < |s| && s[n] == ',' then
      var (more, end) :- ReadNames(s[n + 1..]);
      Some(([s[..n]] + more, end))
    else Some(([s[..n]], s[n..]))
  }

  function Zip(names: seq<string>, values: seq<Value>): Properties {
    if names == [] || values == [] then [] else [(names[0], values[0])] + Zip(names[1..], values[1..])
  }

  function ReadRow(edgeType: string, names: seq<string>, kinds: seq<Kind>, s: string): Parsed<EdgeRecord> {
    var (source, s1) :- ReadString(s);
    var s2 :- Expect(s1, "->");
    var (target, s3) :- ReadString(s2);
    var s4 :- Expect(s3, "@");
    var (rank, s5) :- ReadInt(s4);
    var s6 :- Expect(s5, ":(");
    var (values, s7) :- ReadValues(kinds, s6);
    var s8 :- Expect(s7, ")");
    Some((EdgeRecord(edgeType, source, target, rank, Zip(names, values)), s8))
  }

  function ReadRows(edgeType: string, names: seq<string>, kinds: seq<Kind>, s: string): Parsed<seq<EdgeRecord>>
    decreases |s|
  {
    var (row, rest) :- ReadRow(edgeType, names, kinds, s);
    if rest == "" || rest[0] != ',' || |rest| > |s| then Some(([row], rest))
    else
      var (more, end) :- ReadRows(edgeType, names, kinds, rest[1..]);
      Some(([row] + more, end))
  }

  /** Reads the records of an INSERT EDGE statement, given the column types of its properties. */
  function ReadStatement(kinds: seq<Kind>, s: string): Option<seq<EdgeRecord>> {
    if s == "" then Some([])
    else
      var s1 :- Expect(s, "INSERT EDGE ");
      var n := NameRun(s1);
      var s2 :- Expect(s1[n..], "(");
      var (names, s3) :- ReadNames(s2);
      var s4 :- Expect(s3, ") VALUES ");
      var (rows, s5) :- ReadRows(s1[..n], names, kinds, s4);
      if s5 == ";" then Some(rows) else None
  }

  /** A record that fits a table with these property names and column types. */
  ghost predicate Fits(edgeType: string, names: seq<string>, kinds: seq<Kind>, r: EdgeRecord) {
    && r.edgeType == edgeType && |names| == |kinds| == |r.properties|
    && forall i | 0 <= i < |names| :: r.properties[i].0 == names[i] && KindOf(r.properties[i].1) == kinds[i]
  }

  function Kinds(values: seq<Value>): seq<Kind> {
    seq(|values|, i requires 0 <= i < |values| => KindOf(values[i]))
  }

  function Texts(values: seq<Value>): seq<string> {
    seq(|values|, i requires 0 <= i < |values| => NgqlValue(values[i]))
  }

  function ValuesOf(properties: Properties): seq<Value> {
    seq(|properties|, i requires 0 <= i < |properties| => properties[i].1)
  }

  lemma {:induction false} ValuesReadBack(values: seq<Value>, rest: string)
    requires Ends(rest)
    ensures ReadValues(Kinds(values), Join(Texts(values)) + rest) == Some((values, rest))
  {
    hide ReadValue, NgqlValue, KindOf;
    if |values| == 0 {
      assert Join(Texts(values)) + rest == rest;
    } else if |values| == 1 {
      ValueReadsBack(values[0], rest);
      assert values == [values[0]];
    } else {
      var more := values[1..];
      ValuesReadBack(more, rest);
      assert Kinds(values)[1..] == Kinds(more) && Texts(values)[1..] == Texts(more);
      var tail := Join(Texts(more)) + rest;
      assert Join(Texts(values)) + rest == Texts(values)[0] + ("," + tail);
      ValueReadsBack(values[0], "," + tail);
      ExpectHere(",", tail);
      assert values == [values[0]] + more;
    }
  }

  lemma {:induction false} ZipValues(names: seq<string>, properties: Properties)
    requires |names| == |properties| && forall i | 0 <= i < |names| :: properties[i].0 == names[i]
    ensures Zip(names, ValuesOf(properties)) == properties
  {
    if names != [] {
      ZipValues(names[1..], properties[1..]);
      assert ValuesOf(properties)[1..] == ValuesOf(properties[1..]);
    }
  }

  lemma RowReadsBack(edgeType: string, names: seq<string>, kinds: seq<Kind>, r: EdgeRecord, rest: string)
    requires Fits(edgeType, names, kinds, r)
    ensures ReadRow(edgeType, names, kinds, RowText(r) + rest) == Some((r, rest))
  {
    hide ReadString, ReadInt, ReadValues, Join, NgqlString, Signed, Zip, Expect, NgqlValue;
    var values := ValuesOf(r.properties);
    assert kinds == Kinds(values);
    assert Values(r.properties) == Texts(values);
    var s8 := rest;
    var s7 := ")" + s8;
    var s6 := Join(Texts(values)) + s7;
    var s5 := ":(" + s6;
    var s4 := Signed(r.rank) + s5;
    var s3 := "@" + s4;
    var s2 := NgqlString(r.target) + s3;
    var s1 := "->" + s2;
    assert RowText(r) + rest == NgqlString(r.source) + s1;
    StringReadsBack(r.source, s1);
    ExpectHere("->", s2);
    StringReadsBack(r.target, s3);
    ExpectHere("@", s4);
    IntReadsBack(r.rank, s5);
    ExpectHere(":(", s6);
    ValuesReadBack(values, s7);
    ExpectHere(")", rest);
    ZipValues(names, r.properties);
  }

  // ---------------------------------------------------------------------------
  // A statement read back
  // ---------------------------------------------------------------------------

  lemma {:induction false} NameRunIs(name: string, rest: string)
    requires forall c | c in name :: IsNameChar(c)
    requires rest != "" ==> !IsNameChar(rest[0])
    ensures NameRun(name + rest) == |name|
    ensures (name + rest)[..|name|] == name && (name + rest)[|name|..] == rest
  {
    if name == "" {
      assert name + rest == rest;
    } else {
      assert name[0] in name;
      NameRunIs(name[1..], rest);
      assert (name + rest)[1..] == name[1..] + rest;
    }
  }

  lemma JoinMore(parts: seq<string>, rest: string)
    requires |parts| > 1
    ensures Join(parts) + rest == parts[0] + ("," + (Join(parts[1..]) + rest))
  {
  }

  lemma ReadOneName(name: string, rest: string)
    requires name != "" && NameRun(name + rest) == |name| && rest != "" && rest[0] != ','
    ensures ReadNames(name + rest) == Some(([name], rest))
  {
    hide NameRun;
    SplitBack(name, rest);
  }

  lemma ReadMoreNames(s: string, n: nat, names: seq<string>, rest: string)
    requires NameRun(s) == n && 0 < n < |s| && s[n] == ',' && ReadNames(s[n + 1..]) == Some((names, rest))
    ensures ReadNames(s) == Some(([s[..n]] + names, rest))
  {
    hide NameRun;
  }

  lemma {:induction false} NamesReadBack(names: seq<string>, rest: string)
    requires (forall name | name in names :: IsName(name)) && rest != "" && rest[0] == ')'
    ensures ReadNames(Join(names) + rest) == Some((names, rest))
  {
    hide NameRun, Join;
    if |names| == 0 {
      NoNames(rest);
      NameRunIs("", rest);
    } else if |names| == 1 {
      assert names[0] in names && names == [names[0]];
      OneName(names[0]);
      NameRunIs(names[0], rest);
      ReadOneName(names[0], rest);
    } else {
      assert names[0] in names && names == [names[0]] + names[1..];
      NamesReadBack(names[1..], rest);
      var tail := Join(names[1..]) + rest;
      JoinMore(names, rest);
      NameRunIs(names[0], "," + tail);
      SplitBack(names[0], "," + tail);
      SplitBack(names[0] + ",", tail);
      assert names[0] + ("," + tail) == names[0] + "," + tail;
      ReadMoreNames(names[0] + ("," + tail), |names[0]|, names[1..], rest);
    }
  }

  lemma NoNames(rest: string)
    ensures Join([]) + rest == "" + rest
  {
  }

  lemma OneName(name: string)
    ensures Join([name]) == name
  {
  }

  function RowTexts(rows: seq<EdgeRecord>): seq<string> {
    seq(|rows|, i requires 0 <= i < |rows| => RowText(rows[i]))
  }

  lemma {:induction false} RowsReadBack(edgeType: string, names: seq<string>, kinds: seq<Kind>, rows: seq<EdgeRecord>, rest: string)
    requires rows != [] && forall r | r in rows :: Fits(edgeType, names, kinds, r)
    requires rest != "" && rest[0] != ','
    ensures ReadRows(edgeType, names, kinds, Join(RowTexts(rows)) + rest) == Some((rows, rest))
  {
    hide ReadRow, RowText, Fits;
    assert rows[0] in rows;
    if |rows| == 1 {
      RowReadsBack(edgeType, names, kinds, rows[0], rest);
      assert rows == [rows[0]];
    } else {
      var more := rows[1..];
      RowsReadBack(edgeType, names, kinds, more, rest);
      assert RowTexts(rows)[1..] == RowTexts(more);
      var tail := Join(RowTexts(more)) + rest;
      assert Join(RowTexts(rows)) + rest == RowText(rows[0]) + ("," + tail);
      RowReadsBack(edgeType, names, kinds, rows[0], "," + tail);
      assert ("," + tail)[1..] == tail;
      assert rows == [rows[0]] + more;
    }
  }

  /** Reading a printed statement recovers every record: endpoints, ranks and values, for records of one
      type that share their ordered property names and column types. */
  lemma StatementReadsBack(edgeType: string, names: seq<string>, kinds: seq<Kind>, rows: seq<EdgeRecord>)
    requires IsName(edgeType) && forall name | name in names :: IsName(name)
    requires forall r | r in rows :: Fits(edgeType, names, kinds, r)
    ensures ReadStatement(kinds, EdgeStatement(edgeType, rows)) == Some(rows)
  {
    hide NameRun, ReadNames, ReadRows, Join, Expect;
    if rows != [] {
      assert rows[0] in rows;
      assert Names(rows[0].properties) == names;
      assert RowTexts(rows) == seq(|rows|, i requires 0 <= i < |rows| => RowText(rows[i]));
      var s5 := ";";
      var s4 := Join(RowTexts(rows)) + s5;
      var s3 := ") VALUES " + s4;
      var s2 := Join(names) + s3;
      var s1 := edgeType + ("(" + s2);
      assert EdgeStatement(edgeType, rows) == "INSERT EDGE " + s1;
      ExpectHere("INSERT EDGE ", s1);
      NameRunIs(edgeType, "(" + s2);
      ExpectHere("(", s2);
      NamesReadBack(names, s3);
      ExpectHere(") VALUES ", s4);
      RowsReadBack(edgeType, names, kinds, rows, s5);
    }
  }

  // ---------------------------------------------------------------------------
  // The printed form itself
  // ---------------------------------------------------------------------------

  /** The five characters that are written with a backslash. */
  lemma EscapesAre(c: char)
    ensures Escape("\n") == "\\n" && Escape("\r") == "\\r" && Escape("\t") == "\\t"
    ensures Escape("\"") == "\\\"" && Escape("\\") == "\\\\"
    ensures c !in "\n\r\t\"\\" ==> Escape([c]) == [c]
  {
    hide Escape;
    EscapeOfChar('\n');
    EscapeOfChar('\r');
    EscapeOfChar('\t');
    EscapeOfChar('"');
    EscapeOfChar('\\');
    EscapeOfChar(c);
  }

  lemma {:induction false} JoinIs(parts: seq<string>, last: string)
    requires parts != []
    ensures Join([last]) == last && Join(parts + [last]) == Join(parts) + "," + last
  {
    assert (parts + [last])[1..] == parts[1..] + [last];
    if |parts| > 1 {
      JoinIs(parts[1..], last);
    }
  }

  /** The statement for one edge with one property, as the database is sent it. */
  lemma StatementIs(r: EdgeRecord, name: string, value: Value)
    requires r.properties == [(name, value)]
    ensures EdgeStatement(r.edgeType, [r]) ==
              "INSERT EDGE " + r.edgeType + "(" + name + ") VALUES \"" + Escape(r.source) + "\"->\"" + Escape(r.target)
              + "\"@" + Signed(r.rank) + ":(" + NgqlValue(value) + ");"
  {
    hide Escape, Signed, NgqlValue;
    assert Names(r.properties) == [name] && Values(r.properties) == [NgqlValue(value)];
    var row := "\"" + Escape(r.source) + "\"->\"" + Escape(r.target) + "\"@" + Signed(r.rank) + ":(" + NgqlValue(value) + ")";
    assert RowText(r) == row;
    assert EdgeStatement(r.edgeType, [r]) == "INSERT EDGE " + r.edgeType + "(" + name + ") VALUES " + row + ";";
  }

  /** A boolean, a text and a whole number. */
  lemma ValuesAre(b: bool, t: string, n: nat)
    ensures NgqlValue(Bool(b)) == if b then "true" else "false"
    ensures NgqlValue(Str(t)) == "\"" + Escape(t) + "\""
    ensures NgqlValue(Int(n)) == Decimal(n) && (n > 0 ==> NgqlValue(Int(0 - n)) == "-" + Decimal(n))
  {
  }
}
