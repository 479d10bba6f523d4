/** The `traceparent` header codec of fastrace/src/collector/id.rs (section 3.2.2 of W3C Trace Context). */
module Traceparent {
  import opened Records

  function Pow16(n: nat): nat {
    if n == 0 then 1 else 16 * Pow16(n - 1)
  }

  // The ranges of u128, u64 and u8.
  const TRACE_ID_LIMIT := Pow16(32)
  const SPAN_ID_LIMIT := Pow16(16)
  const FLAGS_LIMIT := Pow16(2)

  const SEPARATOR := '-'

  // Reading hexadecimal numbers

  function DigitValue(c: char): Option<nat> {
    if '0' <= c <= '9' then Some(c as int - '0' as int)
    else if 'a' <= c <= 'f' then Some(c as int - 'a' as int + 10)
    else if 'A' <= c <= 'F' then Some(c as int - 'A' as int + 10)
    else None
  }

  /** Accumulates digits from the left, with overflow checks at every step. */
  function ParseDigits(s: string, limit: nat): Option<nat> {
    if s == "" then Some(0)
    else
      match (ParseDigits(Init(s), limit), DigitValue(Last(s)))
      case (Some(v), Some(d)) => if v * 16 < limit && v * 16 + d < limit then Some(v * 16 + d) else None
      case _ => None
  }

  /** `uN::from_str_radix(s, 16)`: a leading plus sign is accepted, the empty string and a lone sign are not. */
  function FromStrRadix16(s: string, limit: nat): Option<nat> {
    if s == "" || s == "+" || s == "-" then None
    else if s[0] == '+' then ParseDigits(s[1..], limit)
    else ParseDigits(s, limit)
  }

  // Writing them

  function DigitChar(d: nat): char
    requires d < 16
  {
    "0123456789abcdef"[d]
  }

  function Hex(n: nat): string {
    if n < 16 then [DigitChar(n)] else Hex(n / 16) + [DigitChar(n % 16)]
  }

  function Zeros(n: nat): string {
    seq(n, _ => '0')
  }

  /** `format!("{:0width$x}", n)`: pads but never truncates. */
  function PaddedHex(n: nat, width: nat): string {
    if |Hex(n)| >= width then Hex(n) else Zeros(width - |Hex(n)|) + Hex(n)
  }

  // The header

  function Split(s: string): seq<string> {
    if s == "" then [""]
    else if s[0] == SEPARATOR then [""] + Split(s[1..])
    else
      var rest := Split(s[1..]);
      [[s[0]] + rest[0]] + rest[1..]
  }

  function Decode(traceparent: string): Option<SpanContext> {
    var parts := Split(traceparent);
    if |parts| == 4 && parts[0] == "00" then
      match (FromStrRadix16(parts[1], TRACE_ID_LIMIT), FromStrRadix16(parts[2], SPAN_ID_LIMIT),
             FromStrRadix16(parts[3], FLAGS_LIMIT))
      case (Some(traceId), Some(spanId), Some(flags)) => Some(SpanContext(traceId, spanId, flags % 2 == 1))
      case _ => None
    else None
  }

  function Encode(c: SpanContext): string {
    "00-" + PaddedHex(c.traceId, 32) + "-" + PaddedHex(c.spanId, 16) + "-" + PaddedHex(if c.sampled then 1 else 0, 2)
  }

  ghost predicate InRange(c: SpanContext) {
    c.traceId < TRACE_ID_LIMIT && c.spanId < SPAN_ID_LIMIT
  }

  // Numbers

  predicate IsLowerHex(c: char) {
    '0' <= c <= '9' || 'a' <= c <= 'f'
  }

  predicate AllLowerHex(s: string) {
    forall c <- s :: IsLowerHex(c)
  }

  lemma {:induction false} DigitsInverse(d: nat, c: char)
    ensures d < 16 ==> DigitValue(DigitChar(d)) == Some(d) && IsLowerHex(DigitChar(d))
    ensures IsLowerHex(c) ==> DigitValue(c).Some? && DigitValue(c).value < 16 && DigitChar(DigitValue(c).value) == c
  {
  }

  lemma {:induction false} HexLength(n: nat, width: nat)
    requires 1 <= width && n < Pow16(width)
    ensures 1 <= |Hex(n)| <= width && AllLowerHex(Hex(n))
  {
    if n >= 16 {
      assert width >= 2 by { assert Pow16(1) == 16; }
      HexLength(n / 16, width - 1);
    }
  }

  lemma {:induction false} ParseHex(n: nat, limit: nat)
    requires n < limit
    ensures ParseDigits(Hex(n), limit) == Some(n)
  {
    if n < 16 {
      assert Init(Hex(n)) == "";
      DigitsInverse(n, 'a');
      assert ParseDigits("", limit) == Some(0);
    } else {
      assert Init(Hex(n)) == Hex(n / 16);
      DigitsInverse(n % 16, 'a');
      ParseHex(n / 16, limit);
    }
  }

  /** Leading zeros do not change the number that is read. */
  lemma {:induction false} LeadingZeros(k: nat, s: string, limit: nat)
    requires limit > 0
    ensures ParseDigits(Zeros(k) + s, limit) == ParseDigits(s, limit)
  {
    if s != "" {
      assert Init(Zeros(k) + s) == Zeros(k) + Init(s);
      LeadingZeros(k, Init(s), limit);
    } else if k > 0 {
      assert Zeros(k) + s == Zeros(k - 1) + ['0'] && Init(Zeros(k) + s) == Zeros(k - 1) + "";
      LeadingZeros(k - 1, "", limit);
    } else {
      assert Zeros(k) + s == s;
    }
  }

  /** A padded number has exactly its width in lower-case digits, and reading it gives the number back. */
  lemma {:induction false} PaddedHexRoundTrip(n: nat, width: nat, limit: nat)
    requires 1 <= width && n < Pow16(width) && n < limit
    ensures |PaddedHex(n, width)| == width && AllLowerHex(PaddedHex(n, width))
    ensures FromStrRadix16(PaddedHex(n, width), limit) == Some(n)
  {
    hide Hex, ParseDigits, Pow16;
    HexLength(n, width);
    ParseHex(n, limit);
    LeadingZeros(width - |Hex(n)|, Hex(n), limit);
    var s := PaddedHex(n, width);
    assert s == Zeros(width - |Hex(n)|) + Hex(n);
    assert |s| == width && AllLowerHex(s);
    assert IsLowerHex(s[0]);
    assert s[0] != '+' && s[0] != '-';
    assert s != "+" && s != "-" && s != "";
  }

  /** Numbers of one width are written in only one way with lower-case digits. */
  lemma {:induction false} PaddedHexUnique(s: string, limit: nat, n: nat)
    requires s != "" && AllLowerHex(s) && ParseDigits(s, limit) == Some(n)
    ensures PaddedHex(n, |s|) == s
  {
    hide PaddedHex, DigitValue, DigitChar;
    DigitsInverse(0, Last(s));
    var v, d := LastDigit(s, limit, n);
    assert s == Init(s) + [Last(s)];
    if |s| == 1 {
      SingleDigit(d);
    } else {
      PaddedHexUnique(Init(s), limit, v);
      AppendDigit(v, d, |s| - 1);
    }
  }

  lemma {:induction false} LastDigit(s: string, limit: nat, n: nat) returns (v: nat, d: nat)
    requires s != "" && AllLowerHex(s) && ParseDigits(s, limit) == Some(n)
    ensures ParseDigits(Init(s), limit) == Some(v) && DigitValue(Last(s)) == Some(d)
    ensures d < 16 && n == v * 16 + d && DigitChar(d) == Last(s) && AllLowerHex(Init(s))
    ensures |s| == 1 ==> n == d
  {
    DigitsInverse(0, Last(s));
    v, d := ParseDigits(Init(s), limit).value, DigitValue(Last(s)).value;
    assert |s| == 1 ==> Init(s) == "";
  }

  lemma {:induction false} SingleDigit(d: nat)
    requires d < 16
    ensures PaddedHex(d, 1) == [DigitChar(d)]
  {
  }

  lemma {:induction false} AppendDigit(v: nat, d: nat, width: nat)
    requires d < 16 && |PaddedHex(v, width)| == width && width >= 1
    ensures PaddedHex(v * 16 + d, width + 1) == PaddedHex(v, width) + [DigitChar(d)]
  {
    var n := v * 16 + d;
    if v == 0 {
      assert Hex(0) == "0" && Hex(n) == [DigitChar(d)];
      assert Zeros(width) == Zeros(width - 1) + "0";
      assert PaddedHex(0, width) == Zeros(width);
    } else {
      assert n / 16 == v && n % 16 == d;
      assert Hex(n) == Hex(v) + [DigitChar(d)];
    }
  }

  // Splitting

  lemma {:induction false} SplitJoin(a: string, rest: string)
    requires SEPARATOR !in a
    ensures Split(a + [SEPARATOR] + rest) == [a] + Split(rest)
    ensures Split(a) == [a]
  {
    if a == "" {
      assert a + [SEPARATOR] + rest == [SEPARATOR] + rest;
    } else {
      SplitJoin(a[1..], rest);
      assert (a + [SEPARATOR] + rest)[1..] == a[1..] + [SEPARATOR] + rest;
      assert a == [a[0]] + a[1..];
    }
  }

  function Join(parts: seq<string>): string
    requires parts != []
  {
    if |parts| == 1 then parts[0] else parts[0] + [SEPARATOR] + Join(parts[1..])
  }

  lemma {:induction false} JoinSplit(s: string)
    ensures Join(Split(s)) == s && forall p <- Split(s) :: SEPARATOR !in p
  {
    if s != "" {
      hide Join;
      JoinSplit(s[1..]);
      var rest := Split(s[1..]);
      assert s == [s[0]] + s[1..];
      if s[0] == SEPARATOR {
        JoinFirst("", rest);
      } else {
        JoinGrows(s[0], rest);
      }
    }
  }

  lemma {:induction false} JoinFirst(part: string, rest: seq<string>)
    requires rest != []
    ensures Join([part] + rest) == part + [SEPARATOR] + Join(rest)
  {
    assert ([part] + rest)[1..] == rest;
  }

  lemma {:induction false} JoinGrows(c: char, parts: seq<string>)
    requires parts != []
    ensures Join([[c] + parts[0]] + parts[1..]) == [c] + Join(parts)
  {
    assert ([[c] + parts[0]] + parts[1..])[1..] == parts[1..];
  }

  lemma {:induction false} SplitFour(a: string, b: string, c: string, d: string)
    requires SEPARATOR !in a && SEPARATOR !in b && SEPARATOR !in c && SEPARATOR !in d
    ensures Split(a + "-" + b + "-" + c + "-" + d) == [a, b, c, d]
  {
    hide Split;
    var cd := c + [SEPARATOR] + d;
    var bcd := b + [SEPARATOR] + cd;
    SplitJoin(d, "");
    SplitJoin(c, d);
    SplitJoin(b, cd);
    SplitJoin(a, bcd);
    assert a + "-" + b + "-" + c + "-" + d == a + [SEPARATOR] + bcd;
  }

  lemma {:induction false} NoSeparator(s: string)
    requires AllLowerHex(s)
    ensures SEPARATOR !in s
  {
  }

  // The laws of the codec

  lemma {:induction false} Flags(sampled: bool)
    ensures (if sampled then 1 else 0) < Pow16(2) && FLAGS_LIMIT == 256
  {
    assert Pow16(2) == 16 * Pow16(1) == 16 * 16 * Pow16(0);
  }

  /** Decoding what was encoded gives the context back, and the four fields have their fixed widths. */
  lemma {:induction false} RoundTrip(c: SpanContext)
    requires InRange(c)
    ensures Decode(Encode(c)) == Some(c)
    ensures exists a, b, f :: Encode(c) == "00-" + a + "-" + b + "-" + f
              && |a| == 32 && |b| == 16 && |f| == 2 && AllLowerHex(a) && AllLowerHex(b) && AllLowerHex(f)
  {
    hide PaddedHex, FromStrRadix16, Pow16, Split;
    var flags := if c.sampled then 1 else 0;
    Flags(c.sampled);
    PaddedHexRoundTrip(c.traceId, 32, TRACE_ID_LIMIT);
    PaddedHexRoundTrip(c.spanId, 16, SPAN_ID_LIMIT);
    PaddedHexRoundTrip(flags, 2, FLAGS_LIMIT);
    var a, b, f := PaddedHex(c.traceId, 32), PaddedHex(c.spanId, 16), PaddedHex(flags, 2);
    NoSeparator(a);
    NoSeparator(b);
    NoSeparator(f);
    SplitFour("00", a, b, f);
    assert "00" + "-" == "00-";
    assert Encode(c) == "00-" + a + "-" + b + "-" + f;
  }

  lemma {:induction false} ParsedInRange(s: string, limit: nat)
    requires ParseDigits(s, limit).Some? && limit > 0
    ensures ParseDigits(s, limit).value < limit
  {
  }

  lemma {:induction false} DecodedInRange(s: string)
    requires Decode(s).Some?
    ensures InRange(Decode(s).value)
  {
    hide Pow16, Split, ParseDigits;
    Limits();
    var parts := Split(s);
    ReadInRange(parts[1], TRACE_ID_LIMIT);
    ReadInRange(parts[2], SPAN_ID_LIMIT);
  }

  lemma {:induction false} ReadInRange(s: string, limit: nat)
    requires FromStrRadix16(s, limit).Some? && limit > 0
    ensures FromStrRadix16(s, limit).value < limit
  {
    ParsedInRange(if s[0] == '+' then s[1..] else s, limit);
  }

  lemma {:induction false} Positive(n: nat)
    ensures Pow16(n) > 0
  {
    if n > 0 {
      Positive(n - 1);
    }
  }

  lemma {:induction false} Limits()
    ensures TRACE_ID_LIMIT > 0 && SPAN_ID_LIMIT > 0 && FLAGS_LIMIT > 0
  {
    hide Pow16;
    Positive(32);
    Positive(16);
    Positive(2);
  }

  /** Whatever string is accepted, re-encoding its context gives a string with the same meaning. */
  lemma {:induction false} ReEncode(s: string)
    requires Decode(s).Some?
    ensures Decode(Encode(Decode(s).value)) == Decode(s)
  {
    hide Decode, Encode;
    DecodedInRange(s);
    RoundTrip(Decode(s).value);
  }

  /** The one spelling of a header that the encoder produces. */
  ghost predicate Canonical(s: string) {
    var parts := Split(s);
    && |parts| == 4 && parts[0] == "00"
    && |parts[1]| == 32 && |parts[2]| == 16
    && AllLowerHex(parts[1]) && AllLowerHex(parts[2])
    && (parts[3] == "00" || parts[3] == "01")
  }

  /** The decoder is more lenient than the encoder: upper-case digits, plus signs, other widths and other flag values
      are accepted. Encoding restores an accepted string exactly when it is canonical. */
  lemma {:induction false} EncodeRestores(s: string)
    requires Decode(s).Some?
    ensures Encode(Decode(s).value) == s <==> Canonical(s)
  {
    var c := Decode(s).value;
    DecodedInRange(s);
    if Encode(c) == s {
      EncodedIsCanonical(c);
    } else if Canonical(s) {
      CanonicalIsEncoded(s);
    }
  }

  lemma {:induction false} EncodedIsCanonical(c: SpanContext)
    requires InRange(c)
    ensures Canonical(Encode(c))
  {
    hide FromStrRadix16, Pow16, Split, PaddedHex;
    var flags := if c.sampled then 1 else 0;
    Flags(c.sampled);
    PaddedHexRoundTrip(c.traceId, 32, TRACE_ID_LIMIT);
    PaddedHexRoundTrip(c.spanId, 16, SPAN_ID_LIMIT);
    FlagText(c.sampled);
    var a, b, f := PaddedHex(c.traceId, 32), PaddedHex(c.spanId, 16), PaddedHex(flags, 2);
    NoSeparator(a);
    NoSeparator(b);
    SplitFour("00", a, b, f);
    assert "00" + "-" == "00-";
    assert Encode(c) == "00-" + a + "-" + b + "-" + f;
  }

  lemma {:induction false} FlagText(sampled: bool)
    ensures PaddedHex(if sampled then 1 else 0, 2) == if sampled then "01" else "00"
  {
    assert Zeros(1) == "0";
    assert Hex(0) == "0" && Hex(1) == "1";
  }

  lemma {:induction false} CanonicalIsEncoded(s: string)
    requires Canonical(s) && Decode(s).Some?
    ensures Encode(Decode(s).value) == s
  {
    hide Pow16, Split, PaddedHex, ParseDigits;
    var parts, c := Split(s), Decode(s).value;
    assert IsLowerHex(parts[1][0]) && IsLowerHex(parts[2][0]);
    PaddedHexUnique(parts[1], TRACE_ID_LIMIT, c.traceId);
    PaddedHexUnique(parts[2], SPAN_ID_LIMIT, c.spanId);
    FlagText(c.sampled);
    FlagValue(parts[3]);
    JoinSplit(s);
    JoinFour(parts);
    assert "00" + "-" == "00-";
  }

  lemma {:induction false} FlagValue(s: string)
    requires s == "00" || s == "01"
    ensures FromStrRadix16(s, FLAGS_LIMIT) == Some(if s == "01" then 1 else 0)
  {
    Flags(true);
    assert Init(s) == "0" && Init("0") == "";
    assert ParseDigits("0", FLAGS_LIMIT) == Some(0);
  }

  lemma {:induction false} JoinFour(parts: seq<string>)
    requires |parts| == 4
    ensures Join(parts) == parts[0] + "-" + parts[1] + "-" + parts[2] + "-" + parts[3]
  {
    assert parts[1..][1..] == parts[2..] && parts[2..][1..] == parts[3..];
    assert Join(parts[3..]) == parts[3];
    assert Join(parts[2..]) == parts[2] + "-" + parts[3];
    assert Join(parts[1..]) == parts[1] + "-" + (parts[2] + "-" + parts[3]);
  }

  /** The lenient cases exist: one digit, a sign and an upper-case letter decode, and re-encode differently. */
  lemma {:induction false} LenientExample()
    ensures Decode("00-+A-1-03") == Some(SpanContext(10, 1, true)) && !Canonical("00-+A-1-03")
  {
    hide Split, Pow16;
    SplitFour("00", "+A", "1", "03");
    assert "00" + "-" + "+A" + "-" + "1" + "-" + "03" == "00-+A-1-03";
    SmallLimits();
    assert "+A"[1..] == "A" && Init("A") == "" && Init("1") == "" && Init("03") == "0" && Init("0") == "";
    assert ParseDigits("A", TRACE_ID_LIMIT) == Some(10) && ParseDigits("1", SPAN_ID_LIMIT) == Some(1);
    assert ParseDigits("0", FLAGS_LIMIT) == Some(0) && ParseDigits("03", FLAGS_LIMIT) == Some(3);
  }

  lemma {:induction false} SmallLimits()
    ensures TRACE_ID_LIMIT > 16 && SPAN_ID_LIMIT > 16 && FLAGS_LIMIT > 16
  {
    hide Pow16;
    AtLeast(32);
    AtLeast(16);
    AtLeast(2);
  }

  lemma {:induction false} AtLeast(n: nat)
    requires n >= 2
    ensures Pow16(n) >= 256
  {
    if n == 2 {
      assert Pow16(1) == 16 && Pow16(2) == 256;
    } else {
      AtLeast(n - 1);
    }
  }

  // Exactly which headers are accepted

  /** The number that hexadecimal digits of either case spell. */
  function HexValue(s: string): Option<nat> {
    if s == "" then Some(0)
    else
      match (HexValue(Init(s)), DigitValue(Last(s)))
      case (Some(v), Some(d)) => Some(v * 16 + d)
      case _ => None
  }

  /** The overflow checks at every step refuse exactly the numbers out of range. */
  lemma {:induction false} ParseExactly(s: string, limit: nat)
    requires limit > 0
    ensures ParseDigits(s, limit) == if HexValue(s).Some? && HexValue(s).value < limit then HexValue(s) else None
  {
    hide DigitValue;
    if s != "" {
      ParseExactly(Init(s), limit);
    }
  }

  /** The digits of a field: a plus sign may come first. */
  function Digits(field: string): string {
    if field != "" && field[0] == '+' then field[1..] else field
  }

  /** A field that spells `n` below `limit`. */
  ghost predicate Spells(field: string, n: nat, limit: nat) {
    Digits(field) != "" && HexValue(Digits(field)) == Some(n) && n < limit
  }

  lemma {:induction false} ReadExactly(field: string, n: nat, limit: nat)
    requires limit > 0
    ensures FromStrRadix16(field, limit) == Some(n) <==> Spells(field, n, limit)
  {
    hide ParseDigits, HexValue;
    ParseExactly(Digits(field), limit);
    MinusIsNoDigit();
  }

  lemma {:induction false} MinusIsNoDigit()
    ensures HexValue("-") == None
  {
    assert Init("-") == "";
    assert DigitValue('-') == None;
  }

  /** A header decodes to a context if and only if it has exactly four fields, the first one is the version 00, and the
      others spell the ids and a flag byte in range, the lowest bit of which says whether the trace is sampled. */
  lemma {:induction false} DecodesExactly(s: string, c: SpanContext)
    ensures Decode(s) == Some(c)
            <==> exists a, b, f, flags: nat ::
                   && SEPARATOR !in a && SEPARATOR !in b && SEPARATOR !in f && s == "00-" + a + "-" + b + "-" + f
                   && Spells(a, c.traceId, TRACE_ID_LIMIT) && Spells(b, c.spanId, SPAN_ID_LIMIT)
                   && Spells(f, flags, FLAGS_LIMIT) && (c.sampled <==> flags % 2 == 1)
  {
    hide Split, FromStrRadix16, Pow16, Spells;
    Limits();
    if Decode(s) == Some(c) {
      var parts := Split(s);
      var flags := FromStrRadix16(parts[3], FLAGS_LIMIT).value;
      JoinSplit(s);
      JoinFour(parts);
      assert "00" + "-" == "00-";
      ReadExactly(parts[1], c.traceId, TRACE_ID_LIMIT);
      ReadExactly(parts[2], c.spanId, SPAN_ID_LIMIT);
      ReadExactly(parts[3], flags, FLAGS_LIMIT);
    }
    if a, b, f, flags: nat :|
      && SEPARATOR !in a && SEPARATOR !in b && SEPARATOR !in f && s == "00-" + a + "-" + b + "-" + f
      && Spells(a, c.traceId, TRACE_ID_LIMIT) && Spells(b, c.spanId, SPAN_ID_LIMIT)
      && Spells(f, flags, FLAGS_LIMIT) && (c.sampled <==> flags % 2 == 1)
    {
      SplitFour("00", a, b, f);
      assert "00" + "-" == "00-";
      ReadExactly(a, c.traceId, TRACE_ID_LIMIT);
      ReadExactly(b, c.spanId, SPAN_ID_LIMIT);
      ReadExactly(f, flags, FLAGS_LIMIT);
    }
  }

  lemma {:induction false} LowerHexValue(s: string)
    requires AllLowerHex(s)
    ensures HexValue(s).Some? && HexValue(s).value < Pow16(|s|)
  {
    hide DigitChar;
    if s != "" {
      LowerHexValue(Init(s));
      DigitsInverse(0, Last(s));
    }
  }

  /** Every header of version 00 in the grammar of the standard, with any flags, decodes to the numbers that it
      spells. */
  lemma {:induction false} GrammarDecodes(a: string, b: string, f: string)
    requires |a| == 32 && |b| == 16 && |f| == 2 && AllLowerHex(a) && AllLowerHex(b) && AllLowerHex(f)
    ensures HexValue(a).Some? && HexValue(b).Some? && HexValue(f).Some?
    ensures Decode("00-" + a + "-" + b + "-" + f)
            == Some(SpanContext(HexValue(a).value, HexValue(b).value, HexValue(f).value % 2 == 1))
  {
    hide Decode, Pow16, HexValue;
    LowerHexValue(a);
    LowerHexValue(b);
    LowerHexValue(f);
    NoSeparator(a);
    NoSeparator(b);
    NoSeparator(f);
    assert IsLowerHex(a[0]) && IsLowerHex(b[0]) && IsLowerHex(f[0]);
    var c := SpanContext(HexValue(a).value, HexValue(b).value, HexValue(f).value % 2 == 1);
    assert Spells(f, HexValue(f).value, FLAGS_LIMIT);
    DecodesExactly("00-" + a + "-" + b + "-" + f, c);
  }

  // The digits

  const LOWER_DIGITS := "0123456789abcdef"
  const UPPER_DIGITS := "0123456789ABCDEF"

  /** The v-th character of either row of digits reads as v, and no other character is a digit. The writer uses the
      lower-case row. */
  lemma {:induction false} DigitTable(c: char, v: nat)
    ensures DigitValue(c) == Some(v) <==> v < 16 && (c == LOWER_DIGITS[v] || c == UPPER_DIGITS[v])
    ensures DigitValue(c) == None <==> c !in LOWER_DIGITS && c !in UPPER_DIGITS
    ensures v < 16 ==> Hex(v) == [LOWER_DIGITS[v]]
  {
    if DigitValue(c).Some? {
      var d := DigitValue(c).value;
      assert c == LOWER_DIGITS[d] || c == UPPER_DIGITS[d];
    }
    if c in LOWER_DIGITS {
      var i :| 0 <= i < 16 && LOWER_DIGITS[i] == c;
    }
    if c in UPPER_DIGITS {
      var i :| 0 <= i < 16 && UPPER_DIGITS[i] == c;
    }
  }

  lemma {:induction false} HexConcat(a: string, b: string, x: nat, y: nat)
    requires HexValue(a) == Some(x) && HexValue(b) == Some(y)
    ensures HexValue(a + b) == Some(x * Pow16(|b|) + y)
  {
    hide DigitValue, Pow16;
    if b == "" {
      assert a + b == a;
      OnePower(0);
    } else {
      InitOfConcat(a, b);
      var z := HexValue(Init(b)).value;
      HexConcat(a, Init(b), x, z);
      OnePower(|b|);
      OneDigitMore(x, Pow16(|b| - 1), z);
    }
  }

  lemma {:induction false} OnePower(n: nat)
    ensures Pow16(n) == if n == 0 then 1 else 16 * Pow16(n - 1)
  {
  }

  lemma {:induction false} OneDigitMore(x: nat, power: nat, z: nat)
    ensures (x * power + z) * 16 == x * (16 * power) + z * 16
  {
  }

  lemma {:induction false} FourDigits(s: string)
    requires |s| == 4 && forall i :: 0 <= i < 4 ==> DigitValue(s[i]).Some?
    ensures HexValue(s) == Some(DigitValue(s[0]).value * 4096 + DigitValue(s[1]).value * 256
                                + DigitValue(s[2]).value * 16 + DigitValue(s[3]).value)
  {
    hide DigitValue;
    assert Init(s) == s[..3] && Init(s[..3]) == s[..2] && Init(s[..2]) == s[..1] && Init(s[..1]) == "";
    assert HexValue("") == Some(0);
    assert HexValue(s[..1]) == Some(DigitValue(s[0]).value);
    assert HexValue(s[..2]) == Some(DigitValue(s[0]).value * 16 + DigitValue(s[1]).value);
  }

  /** Sixteen digits from four groups of four. */
  lemma {:induction false} SixteenDigits(a: string, b: string, c: string, d: string, w: nat, x: nat, y: nat, z: nat)
    requires |a| == |b| == |c| == |d| == 4
    requires HexValue(a) == Some(w) && HexValue(b) == Some(x) && HexValue(c) == Some(y) && HexValue(d) == Some(z)
    ensures HexValue(a + b + c + d) == Some(w * 0x1_0000_0000_0000 + x * 0x1_0000_0000 + y * 0x1_0000 + z)
  {
    hide HexValue;
    SmallPowers();
    HexConcat(a, b, w, x);
    HexConcat(a + b, c, w * 0x1_0000 + x, y);
    HexConcat(a + b + c, d, (w * 0x1_0000 + x) * 0x1_0000 + y, z);
  }

  lemma {:induction false} SmallPowers()
    ensures Pow16(4) == 0x1_0000 && Pow16(16) == 0x1_0000_0000_0000_0000
  {
    assert Pow16(1) == 16 && Pow16(2) == 256 && Pow16(3) == 4096;
    assert Pow16(8) == 0x1_0000_0000 by {
      assert Pow16(5) == 0x10_0000 && Pow16(6) == 0x100_0000 && Pow16(7) == 0x1000_0000;
    }
    assert Pow16(12) == 0x1_0000_0000_0000 by {
      assert Pow16(9) == 0x10_0000_0000 && Pow16(10) == 0x100_0000_0000 && Pow16(11) == 0x1000_0000_0000;
    }
    assert Pow16(13) == 0x10_0000_0000_0000 && Pow16(14) == 0x100_0000_0000_0000 && Pow16(15) == 0x1000_0000_0000_0000;
  }

  lemma {:induction false} UpperHalf()
    ensures HexValue("0af7651916cd43dd") == Some(0x0af7651916cd43dd)
  {
    hide HexValue, Pow16;
    FourDigits("0af7");
    FourDigits("6519");
    FourDigits("16cd");
    FourDigits("43dd");
    assert "0af7" + "6519" + "16cd" + "43dd" == "0af7651916cd43dd";
    SixteenDigits("0af7", "6519", "16cd", "43dd", 0x0af7, 0x6519, 0x16cd, 0x43dd);
  }

  lemma {:induction false} LowerHalf()
    ensures HexValue("8448eb211c80319c") == Some(0x8448eb211c80319c)
  {
    hide HexValue, Pow16;
    FourDigits("8448");
    FourDigits("eb21");
    FourDigits("1c80");
    FourDigits("319c");
    assert "8448" + "eb21" + "1c80" + "319c" == "8448eb211c80319c";
    SixteenDigits("8448", "eb21", "1c80", "319c", 0x8448, 0xeb21, 0x1c80, 0x319c);
  }

  lemma {:induction false} DocumentedTraceId()
    ensures HexValue(DOCUMENTED_TRACE_ID) == Some(0x0af7651916cd43dd8448eb211c80319c)
  {
    hide HexValue, Pow16;
    UpperHalf();
    LowerHalf();
    SmallPowers();
    assert "0af7651916cd43dd" + "8448eb211c80319c" == DOCUMENTED_TRACE_ID;
    HexConcat("0af7651916cd43dd", "8448eb211c80319c", 0x0af7651916cd43dd, 0x8448eb211c80319c);
  }

  lemma {:induction false} DocumentedSpanId()
    ensures HexValue(DOCUMENTED_SPAN_ID) == Some(0xb7ad6b7169203331)
  {
    hide HexValue, Pow16;
    FourDigits("b7ad");
    FourDigits("6b71");
    FourDigits("6920");
    FourDigits("3331");
    assert "b7ad" + "6b71" + "6920" + "3331" == DOCUMENTED_SPAN_ID;
    SixteenDigits("b7ad", "6b71", "6920", "3331", 0xb7ad, 0x6b71, 0x6920, 0x3331);
  }

  const DOCUMENTED_TRACE_ID := "0af7651916cd43dd8448eb211c80319c"
  const DOCUMENTED_SPAN_ID := "b7ad6b7169203331"

  lemma {:induction false} OneAfterZero()
    ensures HexValue("01") == Some(1)
  {
    assert Init("01") == "0" && Init("0") == "";
    assert HexValue("") == Some(0) && HexValue("0") == Some(0);
  }

  lemma {:induction false} DocumentedFields()
    ensures |DOCUMENTED_TRACE_ID| == 32 && |DOCUMENTED_SPAN_ID| == 16
    ensures AllLowerHex(DOCUMENTED_TRACE_ID) && AllLowerHex(DOCUMENTED_SPAN_ID) && AllLowerHex("01")
  {
  }

  /** The documented header decodes to its ids, and they encode to it. */
  lemma {:induction false} DocumentedHeader()
    ensures var header := "00-" + DOCUMENTED_TRACE_ID + "-" + DOCUMENTED_SPAN_ID + "-" + "01";
            var context := SpanContext(0x0af7651916cd43dd8448eb211c80319c, 0xb7ad6b7169203331, true);
            Decode(header) == Some(context) && Encode(context) == header
  {
    DocumentedTraceId();
    DocumentedSpanId();
    OneAfterZero();
    DocumentedFields();
    SampledHeader(DOCUMENTED_TRACE_ID, DOCUMENTED_SPAN_ID, 0x0af7651916cd43dd8448eb211c80319c, 0xb7ad6b7169203331);
  }

  lemma {:induction false} SampledHeader(a: string, b: string, traceId: nat, spanId: nat)
    requires |a| == 32 && |b| == 16 && AllLowerHex(a) && AllLowerHex(b)
    requires HexValue(a) == Some(traceId) && HexValue(b) == Some(spanId)
    ensures var header := "00-" + a + "-" + b + "-" + "01";
            Decode(header) == Some(SpanContext(traceId, spanId, true))
            && Encode(SpanContext(traceId, spanId, true)) == header
  {
    hide HexValue, Decode, Encode, Split;
    DocumentedFields();
    OneAfterZero();
    GrammarDecodes(a, b, "01");
    NoSeparator(a);
    NoSeparator(b);
    NoSeparator("01");
    SplitFour("00", a, b, "01");
    assert "00" + "-" == "00-";
    EncodeRestores("00-" + a + "-" + b + "-" + "01");
  }
}
