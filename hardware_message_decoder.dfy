/**
 * The u-blox line decoder: a combinator grammar for the two ASCII messages
 * the antennas send,
 *
 *   +UUDF:<id>,<i32>,<i32>,<i32>,<i32>,<u32>,"<id>","<alnum>",<u32>,<u32>
 *   +UUDFP:<id>,<hex digits>
 *
 * Every nom combinator becomes an explicit parser over `string` returning
 * an `IResult`: `Done(value, rest)`, `Fail(error)` (nom's recoverable
 * error, carrying the input at the point of failure and the kind of the
 * failing primitive) or `Panic` (a Rust panic, which no combinator catches).
 */
module HardwareMessageDecoder {

  type u32 = x: int | 0 <= x < 0x1_0000_0000
  type i32 = x: int | -0x8000_0000 <= x < 0x8000_0000
  type u64 = x: int | 0 <= x < 0x1_0000_0000_0000_0000

  /** An id is exactly this many hex digits ... */
  const ID_DIGITS: nat := 12
  /** ... so its value is below 16^12 = 2^48. */
  const ID_BOUND: nat := 0x1_0000_0000_0000

  const UUDF_TAG: string := "+UUDF:"
  const UUDFP_TAG: string := "+UUDFP:"

  /** A measurement between one tag and one antenna. */
  datatype UudfEvent = UudfEvent(
    tagId: u64,
    rssi: i32,
    angle1: i32,
    angle2: i32,
    reserved: i32,
    channel: u32,
    anchorId: u64,
    userDefined: string,
    timestamp: u32,
    sequence: u32)

  /** A heartbeat: the tag is alive; no measurement. */
  datatype UudfpEvent = UudfpEvent(tagId: u64)

  datatype HardwareEvent = Measurement(measurement: UudfEvent) | Heartbeat(heartbeat: UudfpEvent)

  /** nom's error kinds that the primitives used here can raise. */
  datatype ErrorKind = Tag | Char | HexDigit | Digit

  /** nom's `Error { input, code }`. */
  datatype ParseError = ParseError(input: string, code: ErrorKind)

  datatype Step<+T> = Step(value: T, rest: string)

  /** nom's `IResult`, with a panic as a third outcome. */
  datatype IResult<+T> = Done(value: T, rest: string) | Fail(error: ParseError) | Panic {
    predicate IsFailure() {
      !Done?
    }

    function PropagateFailure<U>(): (r: IResult<U>)
      requires !Done?
      ensures !r.Done?
      ensures Fail? ==> r == Fail(error)
      ensures Panic? ==> r == Panic
    {
      if Fail? then Fail(error) else Panic
    }

    function Extract(): Step<T>
      requires Done?
    {
      Step(value, rest)
    }
  }

  /** What `FromStr::from_str` returns, or a panic. */
  datatype FromStrResult<+T> = Ok(value: T) | Err(error: ParseError) | Panicked

  /** `a` is what is left of `b` after a prefix was consumed. */
  predicate IsSuffix(a: string, b: string) {
    |a| <= |b| && a == b[|b| - |a|..]
  }

  /** Every input that `r` reports as remaining (on success or on failure) is a suffix of `s`. */
  predicate Within<T>(r: IResult<T>, s: string) {
    && (r.Done? ==> IsSuffix(r.rest, s))
    && (r.Fail? ==> IsSuffix(r.error.input, s))
  }

  /** A parser run on a remainder `mid` of `s` stays within `s`. */
  lemma WithinSuffix<T>(r: IResult<T>, mid: string, s: string)
    requires Within(r, mid) && IsSuffix(mid, s)
    ensures Within(r, s)
  {}

  // ---------------------------------------------------------------------
  // Character classes and numeric values
  // ---------------------------------------------------------------------

  predicate IsDecDigit(c: char) {
    '0' <= c <= '9'
  }

  predicate IsHexDigit(c: char) {
    IsDecDigit(c) || 'a' <= c <= 'f' || 'A' <= c <= 'F'
  }

  /** nom's `alphanumeric0` accepts ASCII letters and digits only. */
  predicate IsAlphanumeric(c: char) {
    IsDecDigit(c) || 'a' <= c <= 'z' || 'A' <= c <= 'Z'
  }

  datatype CharClass = Decimal | Hexadecimal | Alphanumeric

  predicate InClass(c: char, k: CharClass) {
    match k
    case Decimal => IsDecDigit(c)
    case Hexadecimal => IsHexDigit(c)
    case Alphanumeric => IsAlphanumeric(c)
  }

  predicate AllIn(s: string, k: CharClass) {
    forall i :: 0 <= i < |s| ==> InClass(s[i], k)
  }

  /** The length of the longest prefix of `s` drawn from class `k`: what the greedy primitives consume. */
  function Span(s: string, k: CharClass): (n: nat)
    ensures n <= |s| && AllIn(s[..n], k)
    ensures n < |s| ==> !InClass(s[n], k)
  {
    if s == [] || !InClass(s[0], k) then 0 else 1 + Span(s[1..], k)
  }

  function DigitValue(c: char): (v: nat)
    requires IsHexDigit(c)
    ensures v < 16
    ensures IsDecDigit(c) ==> v < 10
  {
    if IsDecDigit(c) then c as nat - '0' as nat
    else if 'a' <= c <= 'f' then c as nat - 'a' as nat + 10
    else c as nat - 'A' as nat + 10
  }

  function Pow(b: nat, e: nat): nat {
    if e == 0 then 1 else b * Pow(b, e - 1)
  }

  /** The digits of `d` are below `base`. */
  predicate Digits(d: string, base: nat) {
    forall i :: 0 <= i < |d| ==> IsHexDigit(d[i]) && DigitValue(d[i]) < base
  }

  /** The value of a digit string in `base`, most significant digit first (`from_str_radix`). */
  function Value(d: string, base: nat): nat
    requires Digits(d, base)
  {
    if d == [] then 0
    else
      var init := d[..|d| - 1];
      assert Digits(init, base) by {
        forall i | 0 <= i < |init| ensures IsHexDigit(init[i]) && DigitValue(init[i]) < base {
          assert init[i] == d[i];
        }
      }
      Value(init, base) * base + DigitValue(d[|d| - 1])
  }

  /** A numeral of `k` digits in `base` is below `base^k`. */
  lemma {:induction false} ValueBound(d: string, base: nat)
    requires Digits(d, base)
    ensures Value(d, base) < Pow(base, |d|)
  {
    if d != [] {
      var init := d[..|d| - 1];
      ValueBound(init, base);
      PlaceValue(Value(init, base), DigitValue(d[|d| - 1]), base, Pow(base, |init|));
    }
  }

  /** Appending a digit below `base` to a number below `p` gives a number below `p * base`. */
  lemma PlaceValue(init: nat, last: nat, base: nat, p: nat)
    requires init < p && last < base
    ensures init * base + last < p * base
  {
    assert (init + 1) * base <= p * base;
  }

  lemma DecimalDigits(d: string)
    requires AllIn(d, Decimal)
    ensures Digits(d, 10)
  {}

  lemma HexadecimalDigits(d: string)
    requires AllIn(d, Hexadecimal)
    ensures Digits(d, 16)
  {}

  // ---------------------------------------------------------------------
  // nom primitives
  // ---------------------------------------------------------------------

  /** `tag(t)`. */
  function TagP(t: string, s: string): (r: IResult<string>)
    ensures Within(r, s) && !r.Panic?
    ensures r.Done? <==> t <= s
    ensures r.Done? ==> s == t + r.rest
    ensures r.Fail? ==> r.error == ParseError(s, Tag)
  {
    if t <= s then Done(t, s[|t|..]) else Fail(ParseError(s, Tag))
  }

  /** `char(c)`. */
  function CharP(c: char, s: string): (r: IResult<char>)
    ensures Within(r, s)
    ensures r.Done? ==> s == [c] + r.rest
    ensures r.Done? <==> s != [] && s[0] == c
    ensures r.Fail? ==> r.error == ParseError(s, Char)
  {
    if s != [] && s[0] == c then Done(c, s[1..]) else Fail(ParseError(s, Char))
  }

  /** `hex_digit1`. */
  function HexDigit1(s: string): (r: IResult<string>)
    ensures Within(r, s) && !r.Panic?
    ensures r.Fail? <==> Span(s, Hexadecimal) == 0
    ensures r.Fail? ==> r.error == ParseError(s, HexDigit)
    ensures r.Done? ==> r.value != [] && AllIn(r.value, Hexadecimal) && s == r.value + r.rest && StopsAt(r.rest, Hexadecimal)
  {
    var n := Span(s, Hexadecimal);
    if n == 0 then Fail(ParseError(s, HexDigit)) else Done(s[..n], s[n..])
  }

  /** `alphanumeric0`: never fails. */
  function Alphanumeric0(s: string): (r: IResult<string>)
    ensures r.Done? && s == r.value + r.rest && AllIn(r.value, Alphanumeric)
    ensures StopsAt(r.rest, Alphanumeric)
  {
    var n := Span(s, Alphanumeric);
    Done(s[..n], s[n..])
  }

  /** The longest leading run of decimal digits of `s` (possibly empty): the digits nom's `u32` and `i32` read. */
  function DigitRun(s: string): (d: string)
    ensures d <= s && AllIn(d, Decimal) && Digits(d, 10)
    ensures StopsAt(s[|d|..], Decimal)
  {
    var n := Span(s, Decimal);
    DecimalDigits(s[..n]);
    s[..n]
  }

  /** The text after the optional `+` or `-` that nom's `i32` accepts first. */
  function AfterSign(s: string): (t: string)
    ensures IsSuffix(t, s) && |s| - |t| <= 1
  {
    if s != [] && (s[0] == '-' || s[0] == '+') then s[1..] else s
  }

  predicate Negative(s: string) {
    s != [] && s[0] == '-'
  }

  /*
   * nom's `u32` and `i32` check the bound digit by digit and fail as soon as
   * the value read so far leaves the range; the values of the run's prefixes
   * only grow, so that is the same as checking the value of the whole run.
   */

  /** nom's `u32`: a non-empty run of digits that fits in 32 bits; a failure reports the input it was given. */
  function U32(s: string): (r: IResult<u32>)
    ensures Within(r, s) && !r.Panic?
    ensures r.Fail? ==> r.error == ParseError(s, Digit)
    ensures r.Done? <==> DigitRun(s) != [] && Value(DigitRun(s), 10) < 0x1_0000_0000
    ensures r.Done? ==> r.value == Value(DigitRun(s), 10) && s == DigitRun(s) + r.rest
    ensures r.Done? ==> IsDecDigit(s[0]) && StopsAt(r.rest, Decimal)
  {
    var d := DigitRun(s);
    assert s == d + s[|d|..];
    if d != [] && Value(d, 10) < 0x1_0000_0000 then Done(Value(d, 10), s[|d|..])
    else Fail(ParseError(s, Digit))
  }

  /**
   * nom's `i32`: an optional `-` or `+`, then a run of digits whose value,
   * negated after `-`, lies within the signed 32-bit range.
   */
  function I32(s: string): (r: IResult<i32>)
    ensures Within(r, s) && !r.Panic?
    ensures r.Fail? ==> r.error == ParseError(s, Digit)
    ensures var d := DigitRun(AfterSign(s));
      r.Done? <==> d != [] && Value(d, 10) <= (if Negative(s) then 0x8000_0000 else 0x7FFF_FFFF)
    ensures var d := DigitRun(AfterSign(s));
      r.Done? ==> && r.value == (if Negative(s) then -(Value(d, 10) as int) else Value(d, 10))
                  && AfterSign(s) == d + r.rest
    ensures r.Done? ==> StopsAt(r.rest, Decimal) && |r.rest| < |s|
    ensures r.Done? && r.value < 0 ==> s[0] == '-'
  {
    var body := AfterSign(s);
    var d := DigitRun(body);
    assert body == d + body[|d|..];
    var m: int := Value(d, 10);
    if d == [] then Fail(ParseError(s, Digit))
    else if Negative(s) && m <= 0x8000_0000 then Done(-m, body[|d|..])
    else if !Negative(s) && m < 0x8000_0000 then Done(m, body[|d|..])
    else Fail(ParseError(s, Digit))
  }

  // ---------------------------------------------------------------------
  // The grammar
  // ---------------------------------------------------------------------

  /**
   * `parse_id`: a run of hex digits of length exactly 12, read in base 16.
   * Any other non-empty run reaches `from_str_radix("hey", 0)`, which panics
   * because radix 0 is outside 2..=36.
   */
  function ParseId(s: string): (r: IResult<u64>)
    ensures r.Fail? <==> Span(s, Hexadecimal) == 0
    ensures r.Fail? ==> r.error == ParseError(s, HexDigit)
    ensures r.Panic? <==> Span(s, Hexadecimal) !in {0, ID_DIGITS}
    ensures r.Done? ==> r.value < ID_BOUND && r.rest == s[ID_DIGITS..]
    ensures r.Done? ==> Digits(s[..ID_DIGITS], 16) && r.value == Value(s[..ID_DIGITS], 16)
  {
    var d :- HexDigit1(s);
    HexadecimalDigits(d.value);
    ValueBound(d.value, 16);
    IdBound();
    if |d.value| == ID_DIGITS then Done(Value(d.value, 16), d.rest) else Panic
  }

  /** `parse_quoted_id`: an id between double quotes. */
  function ParseQuotedId(s: string): (r: IResult<u64>)
    ensures Within(r, s)
    ensures r.Done? ==> r.value < ID_BOUND
    ensures r.Done? ==> |s| >= ID_DIGITS + 2 && s[0] == '"' && s[ID_DIGITS + 1] == '"' && r.rest == s[ID_DIGITS + 2..]
    ensures r.Done? ==> Digits(s[1..ID_DIGITS + 1], 16) && r.value == Value(s[1..ID_DIGITS + 1], 16)
  {
    var open :- CharP('"', s);
    WithinSuffix(ParseId(open.rest), open.rest, s);
    var id :- ParseId(open.rest);
    assert open.rest == s[1..];
    assert open.rest[..ID_DIGITS] == s[1..ID_DIGITS + 1];
    WithinSuffix(CharP('"', id.rest), id.rest, s);
    var close :- CharP('"', id.rest);
    Done(id.value, close.rest)
  }

  /** `parse_quoted_string`: possibly empty alphanumerics between double quotes. */
  function ParseQuotedString(s: string): (r: IResult<string>)
    ensures Within(r, s) && !r.Panic?
    ensures r.Done? ==> AllIn(r.value, Alphanumeric)
    ensures r.Done? ==> s == "\"" + r.value + "\"" + r.rest
  {
    var open :- CharP('"', s);
    var text := Alphanumeric0(open.rest).Extract();
    var close :- CharP('"', text.rest);
    Done(text.value, close.rest)
  }

  /** `preceded(char(','), i32)`. */
  function CommaI32(s: string): (r: IResult<i32>)
    ensures Within(r, s)
  {
    var comma :- CharP(',', s);
    WithinSuffix(I32(comma.rest), comma.rest, s);
    I32(comma.rest)
  }

  /** `preceded(char(','), u32)`. */
  function CommaU32(s: string): (r: IResult<u32>)
    ensures Within(r, s)
  {
    var comma :- CharP(',', s);
    WithinSuffix(U32(comma.rest), comma.rest, s);
    U32(comma.rest)
  }

  /** `preceded(char(','), parse_quoted_id)`. */
  function CommaQuotedId(s: string): (r: IResult<u64>)
    ensures Within(r, s)
    ensures r.Done? ==> r.value < ID_BOUND
  {
    var comma :- CharP(',', s);
    WithinSuffix(ParseQuotedId(comma.rest), comma.rest, s);
    ParseQuotedId(comma.rest)
  }

  /** `preceded(char(','), parse_quoted_string)`. */
  function CommaQuotedString(s: string): (r: IResult<string>)
    ensures Within(r, s) && !r.Panic?
    ensures r.Done? ==> AllIn(r.value, Alphanumeric)
  {
    var comma :- CharP(',', s);
    WithinSuffix(ParseQuotedString(comma.rest), comma.rest, s);
    ParseQuotedString(comma.rest)
  }

  /*
   * The ten-element `tuple` of `parse_uudf_event` is split in three
   * consecutive runs (the head, the five numeric readings, the trailer);
   * running them one after the other is the same left-to-right chain.
   */

  /** rssi, angle 1, angle 2, reserved, channel. */
  function ParseReadings(s: string): (r: IResult<(i32, i32, i32, i32, u32)>)
    ensures Within(r, s)
  {
    var rssi :- CommaI32(s);
    WithinSuffix(CommaI32(rssi.rest), rssi.rest, s);
    var angle1 :- CommaI32(rssi.rest);
    WithinSuffix(CommaI32(angle1.rest), angle1.rest, s);
    var angle2 :- CommaI32(angle1.rest);
    WithinSuffix(CommaI32(angle2.rest), angle2.rest, s);
    var reserved :- CommaI32(angle2.rest);
    WithinSuffix(CommaU32(reserved.rest), reserved.rest, s);
    var channel :- CommaU32(reserved.rest);
    Done((rssi.value, angle1.value, angle2.value, reserved.value, channel.value), channel.rest)
  }

  /** anchor id, user field, timestamp, sequence. */
  function ParseTrailer(s: string): (r: IResult<(u64, string, u32, u32)>)
    ensures Within(r, s)
    ensures r.Done? ==> r.value.0 < ID_BOUND && AllIn(r.value.1, Alphanumeric)
  {
    var anchorId :- CommaQuotedId(s);
    WithinSuffix(CommaQuotedString(anchorId.rest), anchorId.rest, s);
    var userDefined :- CommaQuotedString(anchorId.rest);
    WithinSuffix(CommaU32(userDefined.rest), userDefined.rest, s);
    var timestamp :- CommaU32(userDefined.rest);
    WithinSuffix(CommaU32(timestamp.rest), timestamp.rest, s);
    var sequence :- CommaU32(timestamp.rest);
    Done((anchorId.value, userDefined.value, timestamp.value, sequence.value), sequence.rest)
  }

  /** `parse_uudf_event`: the tag and the id, then nine comma-separated fields in fixed order. */
  function ParseUudfEvent(s: string): (r: IResult<UudfEvent>)
    ensures Within(r, s)
    ensures r.Done? ==> UUDF_TAG <= s
    ensures r.Done? ==> r.value.tagId < ID_BOUND && r.value.anchorId < ID_BOUND
    ensures r.Done? ==> AllIn(r.value.userDefined, Alphanumeric)
    ensures !(UUDF_TAG <= s) ==> r == Fail(ParseError(s, Tag))
  {
    var t :- TagP(UUDF_TAG, s);
    WithinSuffix(ParseId(t.rest), t.rest, s);
    var tagId :- ParseId(t.rest);
    WithinSuffix(ParseReadings(tagId.rest), tagId.rest, s);
    var readings :- ParseReadings(tagId.rest);
    WithinSuffix(ParseTrailer(readings.rest), readings.rest, s);
    var trailer :- ParseTrailer(readings.rest);
    var (rssi, angle1, angle2, reserved, channel) := readings.value;
    var (anchorId, userDefined, timestamp, sequence) := trailer.value;
    Done(UudfEvent(tagId.value, rssi, angle1, angle2, reserved, channel,
                   anchorId, userDefined, timestamp, sequence),
         trailer.rest)
  }

  /** `parse_uudfp_event`: the tag, an id, a comma and a non-empty hex blob that is dropped. */
  function ParseUudfpEvent(s: string): (r: IResult<UudfpEvent>)
    ensures Within(r, s)
    ensures r.Done? ==> UUDFP_TAG <= s && r.value.tagId < ID_BOUND
    ensures !(UUDFP_TAG <= s) ==> r == Fail(ParseError(s, Tag))
  {
    var t :- TagP(UUDFP_TAG, s);
    WithinSuffix(ParseId(t.rest), t.rest, s);
    var tagId :- ParseId(t.rest);
    WithinSuffix(CharP(',', tagId.rest), tagId.rest, s);
    var comma :- CharP(',', tagId.rest);
    WithinSuffix(HexDigit1(comma.rest), comma.rest, s);
    var blob :- HexDigit1(comma.rest);
    Done(UudfpEvent(tagId.value), blob.rest)
  }

  /**
   * `alt((map(parse_uudf_event, ..), map(parse_uudfp_event, ..)))`: the
   * measurement grammar first, then the heartbeat grammar. With nom's
   * `Error`, `or` keeps the later error, so a double failure reports the
   * heartbeat grammar's error. A panic is never caught.
   */
  function ParseHardwareEvent(s: string): (r: IResult<HardwareEvent>)
    ensures Within(r, s)
    ensures r.Done? && r.value.Measurement? ==> UUDF_TAG <= s
    ensures r.Done? && r.value.Heartbeat? ==> UUDFP_TAG <= s
    ensures !(UUDF_TAG <= s) && !(UUDFP_TAG <= s) ==> r == Fail(ParseError(s, Tag))
  {
    match ParseUudfEvent(s)
    case Done(e, rest) => Done(Measurement(e), rest)
    case Panic => Panic
    case Fail(_) =>
      match ParseUudfpEvent(s)
      case Done(h, rest) => Done(Heartbeat(h), rest)
      case Panic => Panic
      case Fail(e) => Fail(e)
  }

  /** `.finish()` followed by the `from_str` match: the unparsed rest is dropped. */
  function Finish<T>(r: IResult<T>): FromStrResult<T> {
    match r
    case Done(v, _) => Ok(v)
    case Fail(e) => Err(e)
    case Panic => Panicked
  }

  /** `HardwareEvent::from_str`. */
  function HardwareEventFromStr(s: string): (r: FromStrResult<HardwareEvent>)
    ensures r.Ok? && r.value.Measurement? ==> UUDF_TAG <= s && r.value.measurement.tagId < ID_BOUND
    ensures r.Ok? && r.value.Heartbeat? ==> UUDFP_TAG <= s && r.value.heartbeat.tagId < ID_BOUND
    ensures r.Err? ==> IsSuffix(r.error.input, s)
  {
    Finish(ParseHardwareEvent(s))
  }

  /** `UUDFEvent::from_str`. */
  function UudfEventFromStr(s: string): (r: FromStrResult<UudfEvent>)
    ensures r.Ok? ==> UUDF_TAG <= s && r.value.tagId < ID_BOUND && r.value.anchorId < ID_BOUND
    ensures r.Err? ==> IsSuffix(r.error.input, s)
    ensures !(UUDF_TAG <= s) ==> r == Err(ParseError(s, Tag))
  {
    Finish(ParseUudfEvent(s))
  }

  /** `UUDFPEvent::from_str`. */
  function UudfpEventFromStr(s: string): (r: FromStrResult<UudfpEvent>)
    ensures r.Ok? ==> UUDFP_TAG <= s && r.value.tagId < ID_BOUND
    ensures r.Err? ==> IsSuffix(r.error.input, s)
    ensures !(UUDFP_TAG <= s) ==> r == Err(ParseError(s, Tag))
  {
    Finish(ParseUudfpEvent(s))
  }

  // ---------------------------------------------------------------------
  // Which grammar answers
  // ---------------------------------------------------------------------

  /** No line starts with both tags: they differ at their sixth character. */
  lemma TagsExclusive(s: string)
    ensures !(UUDF_TAG <= s && UUDFP_TAG <= s)
  {
    assert UUDF_TAG[5] == ':' && UUDFP_TAG[5] == 'P';
  }

  /**
   * `HardwareEvent::from_str` yields a heartbeat exactly when the heartbeat
   * grammar matches, a measurement exactly when the measurement grammar
   * matches, and when both fail it reports the heartbeat grammar's error.
   */
  lemma FromStrChoosesGrammar(s: string)
    ensures (HardwareEventFromStr(s).Ok? && HardwareEventFromStr(s).value.Heartbeat?)
            <==> ParseUudfpEvent(s).Done?
    ensures ParseUudfpEvent(s).Done? ==> HardwareEventFromStr(s) == Ok(Heartbeat(ParseUudfpEvent(s).value))
    ensures (HardwareEventFromStr(s).Ok? && HardwareEventFromStr(s).value.Measurement?)
            <==> ParseUudfEvent(s).Done?
    ensures ParseUudfEvent(s).Done? ==> HardwareEventFromStr(s) == Ok(Measurement(ParseUudfEvent(s).value))
    ensures HardwareEventFromStr(s).Err? ==> ParseUudfpEvent(s).Fail? && HardwareEventFromStr(s).error == ParseUudfpEvent(s).error
  {
    TagsExclusive(s);
  }

  /** A line that starts with neither tag is rejected with a `Tag` error carrying the whole line. */
  lemma FromStrUntagged(s: string)
    requires !(UUDF_TAG <= s) && !(UUDFP_TAG <= s)
    ensures HardwareEventFromStr(s) == Err(ParseError(s, Tag))
  {}

  // ---------------------------------------------------------------------
  // Writing events back out: the inverse of the grammar
  // ---------------------------------------------------------------------

  /** The greedy primitive of class `k` stops at the start of `t`. */
  predicate StopsAt(t: string, k: CharClass) {
    t == [] || !InClass(t[0], k)
  }

  function HexChar(d: nat): (c: char)
    requires d < 16
    ensures IsHexDigit(c) && DigitValue(c) == d
  {
    if d < 10 then ('0' as int + d) as char else ('A' as int + d - 10) as char
  }

  function DecChar(d: nat): (c: char)
    requires d < 10
    ensures IsDecDigit(c) && DigitValue(c) == d
  {
    ('0' as int + d) as char
  }

  /** `n` as exactly `w` upper-case hex digits, most significant first. */
  function HexFixed(n: nat, w: nat): (s: string)
    ensures |s| == w && AllIn(s, Hexadecimal)
  {
    if w == 0 then [] else HexFixed(n / 16, w - 1) + [HexChar(n % 16)]
  }

  /** The shortest decimal numeral of `n`. */
  function DecimalText(n: nat): (s: string)
    ensures s != [] && AllIn(s, Decimal)
  {
    if n < 10 then [DecChar(n)] else DecimalText(n / 10) + [DecChar(n % 10)]
  }

  /** A decimal numeral with a leading `-` when negative. */
  function SignedText(x: int): string {
    if x < 0 then "-" + DecimalText(-x) else DecimalText(x)
  }

  /** The text of each of the ten fields of a measurement line, as it stands in the line. */
  datatype UudfText = UudfText(
    tagId: string,
    rssi: string,
    angle1: string,
    angle2: string,
    reserved: string,
    channel: string,
    anchorId: string,
    userDefined: string,
    timestamp: string,
    sequence: string)

  /** A measurement line assembled from its field texts, in the order the grammar reads them. */
  function LineText(f: UudfText): string {
    UUDF_TAG + f.tagId + ReadingsText(f) + TrailerText(f)
  }

  function ReadingsText(f: UudfText): string {
    "," + f.rssi + "," + f.angle1 + "," + f.angle2 + "," + f.reserved + "," + f.channel
  }

  function TrailerText(f: UudfText): string {
    ",\"" + f.anchorId + "\",\"" + f.userDefined + "\"," + f.timestamp + "," + f.sequence
  }

  /** The field texts the writer uses: upper-case 12-digit ids and the shortest decimal numerals. */
  function Written(e: UudfEvent): UudfText {
    UudfText(HexFixed(e.tagId, ID_DIGITS), SignedText(e.rssi), SignedText(e.angle1),
             SignedText(e.angle2), SignedText(e.reserved), DecimalText(e.channel),
             HexFixed(e.anchorId, ID_DIGITS), e.userDefined,
             DecimalText(e.timestamp), DecimalText(e.sequence))
  }

  /** The measurement line of `e`. */
  function FormatUudf(e: UudfEvent): string {
    LineText(Written(e))
  }

  /** The heartbeat line for tag `id` carrying the hex blob `blob`. */
  function FormatUudfp(id: nat, blob: string): string {
    UUDFP_TAG + HexFixed(id, ID_DIGITS) + "," + blob
  }

  /** The events the grammar can produce: both ids fit in 12 hex digits and the user field is alphanumeric. */
  predicate WellFormed(e: UudfEvent) {
    e.tagId < ID_BOUND && e.anchorId < ID_BOUND && AllIn(e.userDefined, Alphanumeric)
  }

  lemma {:induction false} SpanOfPrefix(a: string, t: string, k: CharClass)
    requires AllIn(a, k) && StopsAt(t, k)
    ensures Span(a + t, k) == |a|
  {
    if a == [] {
      assert a + t == t;
    } else {
      assert (a + t)[1..] == a[1..] + t;
      SpanOfPrefix(a[1..], t, k);
    }
  }

  lemma {:induction false} HexFixedValue(n: nat, w: nat)
    requires n < Pow(16, w)
    ensures Digits(HexFixed(n, w), 16) && Value(HexFixed(n, w), 16) == n
  {
    HexadecimalDigits(HexFixed(n, w));
    if w > 0 {
      HexFixedValue(n / 16, w - 1);
      assert HexFixed(n, w)[..w - 1] == HexFixed(n / 16, w - 1);
    }
  }

  lemma {:induction false} DecimalTextValue(n: nat)
    ensures Digits(DecimalText(n), 10) && Value(DecimalText(n), 10) == n
  {
    var d := DecimalText(n);
    DecimalDigits(d);
    if n >= 10 {
      DecimalTextValue(n / 10);
      assert d[..|d| - 1] == DecimalText(n / 10);
    }
  }

  lemma IdBound()
    ensures Pow(16, ID_DIGITS) == ID_BOUND
  {}

  lemma DigitRunText(n: nat, t: string)
    requires StopsAt(t, Decimal)
    ensures DigitRun(DecimalText(n) + t) == DecimalText(n) && Value(DecimalText(n), 10) == n
    ensures (DecimalText(n) + t)[|DecimalText(n)|..] == t
  {
    var d := DecimalText(n);
    SpanOfPrefix(d, t, Decimal);
    assert (d + t)[..|d|] == d;
    DecimalTextValue(n);
  }

  lemma U32Text(n: u32, t: string)
    requires StopsAt(t, Decimal)
    ensures U32(DecimalText(n) + t) == Done(n, t)
  {
    DigitRunText(n, t);
  }

  /** `i32` on a text whose digits after the optional sign are `d`, followed by `t`. */
  lemma I32Reads(s: string, d: string, t: string)
    requires d != [] && AfterSign(s) == d + t && DigitRun(d + t) == d && (d + t)[|d|..] == t
    requires Value(d, 10) <= (if Negative(s) then 0x8000_0000 else 0x7FFF_FFFF)
    ensures I32(s).Done? && I32(s).rest == t
    ensures I32(s).value == (if Negative(s) then -(Value(d, 10) as int) else Value(d, 10))
  {
    var r := I32(s);
    assert r.rest == (d + r.rest)[|d|..];
  }

  /** `i32` on a minus sign, a digit run `d` of value `-x` and a rest `t`. */
  lemma I32Negative(d: string, t: string, x: i32)
    requires d != [] && DigitRun(d + t) == d && Value(d, 10) == -(x as int) && (d + t)[|d|..] == t
    ensures I32("-" + d + t).Done? && I32("-" + d + t).value == x && I32("-" + d + t).rest == t
  {
    var s := "-" + d + t;
    assert Negative(s) && AfterSign(s) == d + t by {
      DropFirst('-', d, t);
    }
    I32Reads(s, d, t);
  }

  lemma DropFirst(c: char, d: string, t: string)
    ensures ([c] + d + t)[0] == c && ([c] + d + t)[1..] == d + t
  {}

  /** `i32` on an unsigned digit run `d` of value `x` and a rest `t`. */
  lemma I32Positive(d: string, t: string, x: i32)
    requires d != [] && IsDecDigit(d[0]) && DigitRun(d + t) == d && Value(d, 10) == x && (d + t)[|d|..] == t
    ensures I32(d + t) == Done(x, t)
  {
    var s := d + t;
    assert !Negative(s) && AfterSign(s) == s by {
      assert s[0] == d[0];
    }
    I32Reads(s, d, t);
  }

  lemma I32Text(x: i32, t: string)
    requires StopsAt(t, Decimal)
    ensures I32(SignedText(x) + t) == Done(x, t)
  {
    var m: nat := if x < 0 then -(x as int) else x;
    var d := DecimalText(m);
    DigitRunText(m, t);
    if x < 0 {
      I32Negative(d, t, x);
    } else {
      assert d != [] && IsDecDigit(d[0]);
      I32Positive(d, t, x);
    }
  }

  lemma ParseIdText(n: nat, t: string)
    requires n < ID_BOUND && StopsAt(t, Hexadecimal)
    ensures ParseId(HexFixed(n, ID_DIGITS) + t) == Done(n, t)
  {
    var d := HexFixed(n, ID_DIGITS);
    SpanOfPrefix(d, t, Hexadecimal);
    assert (d + t)[..|d|] == d;
    IdBound();
    HexFixedValue(n, ID_DIGITS);
  }

  lemma QuotedIdText(n: nat, t: string)
    requires n < ID_BOUND
    ensures ParseQuotedId("\"" + HexFixed(n, ID_DIGITS) + "\"" + t) == Done(n, t)
  {
    var d := HexFixed(n, ID_DIGITS);
    assert ("\"" + d + "\"" + t)[1..] == d + ("\"" + t);
    ParseIdText(n, "\"" + t);
  }

  lemma QuotedStringText(u: string, t: string)
    requires AllIn(u, Alphanumeric)
    ensures ParseQuotedString("\"" + u + "\"" + t) == Done(u, t)
  {
    var s := "\"" + u + "\"" + t;
    var m := u + ("\"" + t);
    assert CharP('"', s) == Done('"', m) by {
      assert s[1..] == m;
    }
    assert Alphanumeric0(m) == Done(u, "\"" + t) by {
      SpanOfPrefix(u, "\"" + t, Alphanumeric);
      assert m[..|u|] == u && m[|u|..] == "\"" + t;
    }
    assert CharP('"', "\"" + t) == Done('"', t) by {
      assert ("\"" + t)[1..] == t;
    }
  }

  lemma CommaI32Text(x: i32, t: string)
    requires StopsAt(t, Decimal)
    ensures CommaI32("," + SignedText(x) + t) == Done(x, t)
  {
    var s := "," + SignedText(x) + t;
    var rest := SignedText(x) + t;
    assert CharP(',', s) == Done(',', rest) by {
      assert s[1..] == rest;
    }
    assert I32(rest) == Done(x, t) by {
      I32Text(x, t);
    }
  }

  lemma CommaU32Text(n: u32, t: string)
    requires StopsAt(t, Decimal)
    ensures CommaU32("," + DecimalText(n) + t) == Done(n, t)
  {
    var s := "," + DecimalText(n) + t;
    var rest := DecimalText(n) + t;
    assert CharP(',', s) == Done(',', rest) by {
      assert s[1..] == rest;
    }
    assert U32(rest) == Done(n, t) by {
      U32Text(n, t);
    }
  }

  lemma CommaQuotedIdText(n: nat, t: string)
    requires n < ID_BOUND
    ensures CommaQuotedId(",\"" + HexFixed(n, ID_DIGITS) + "\"" + t) == Done(n, t)
  {
    var s := ",\"" + HexFixed(n, ID_DIGITS) + "\"" + t;
    var rest := "\"" + HexFixed(n, ID_DIGITS) + "\"" + t;
    assert CharP(',', s) == Done(',', rest) by {
      assert s[1..] == rest;
    }
    assert ParseQuotedId(rest) == Done(n, t) by {
      QuotedIdText(n, t);
    }
  }

  lemma CommaQuotedStringText(u: string, t: string)
    requires AllIn(u, Alphanumeric)
    ensures CommaQuotedString(",\"" + u + "\"" + t) == Done(u, t)
  {
    var s := ",\"" + u + "\"" + t;
    var rest := "\"" + u + "\"" + t;
    assert CharP(',', s) == Done(',', rest) by {
      assert s[1..] == rest;
    }
    assert ParseQuotedString(rest) == Done(u, t) by {
      QuotedStringText(u, t);
    }
  }

  // The three regrouping lemmas below restate string concatenation from the
  // right; proved on their own, they keep that rewriting out of the larger
  // round-trip proofs that use them.

  /** Five comma-led fields followed by `t`, regrouped from the right. */
  lemma Regroup5(a: string, b: string, c: string, d: string, f: string, t: string)
    ensures "," + a + "," + b + "," + c + "," + d + "," + f + t
         == "," + a + ("," + b + ("," + c + ("," + d + ("," + f + t))))
  {}

  /** The quoted anchor id, the quoted user field, the timestamp and the sequence, regrouped from the right. */
  lemma RegroupTrailer(id: string, u: string, ts: string, sq: string, t: string)
    ensures ",\"" + id + "\",\"" + u + "\"," + ts + "," + sq + t
         == ",\"" + id + "\"" + (",\"" + u + "\"" + ("," + ts + ("," + sq + t)))
  {}

  /** Four pieces followed by `t`, regrouped from the right. */
  lemma Regroup4(a: string, b: string, c: string, d: string, t: string)
    ensures a + b + c + d + t == a + (b + (c + (d + t)))
  {}

  lemma ReadingsRoundTrip(e: UudfEvent, t: string)
    requires StopsAt(t, Decimal)
    ensures ParseReadings(ReadingsText(Written(e)) + t) == Done((e.rssi, e.angle1, e.angle2, e.reserved, e.channel), t)
  {
    var t4 := "," + DecimalText(e.channel) + t;
    var t3 := "," + SignedText(e.reserved) + t4;
    var t2 := "," + SignedText(e.angle2) + t3;
    var t1 := "," + SignedText(e.angle1) + t2;
    var s := "," + SignedText(e.rssi) + t1;
    assert ReadingsText(Written(e)) + t == s by {
      Regroup5(SignedText(e.rssi), SignedText(e.angle1), SignedText(e.angle2),
               SignedText(e.reserved), DecimalText(e.channel), t);
    }
    assert CommaU32(t4) == Done(e.channel, t) by { CommaU32Text(e.channel, t); }
    assert CommaI32(t3) == Done(e.reserved, t4) by { CommaI32Text(e.reserved, t4); }
    assert CommaI32(t2) == Done(e.angle2, t3) by { CommaI32Text(e.angle2, t3); }
    assert CommaI32(t1) == Done(e.angle1, t2) by { CommaI32Text(e.angle1, t2); }
    assert CommaI32(s) == Done(e.rssi, t1) by { CommaI32Text(e.rssi, t1); }
  }

  lemma TrailerRoundTrip(e: UudfEvent, t: string)
    requires e.anchorId < ID_BOUND && AllIn(e.userDefined, Alphanumeric) && StopsAt(t, Decimal)
    ensures ParseTrailer(TrailerText(Written(e)) + t) == Done((e.anchorId, e.userDefined, e.timestamp, e.sequence), t)
  {
    var t3 := "," + DecimalText(e.sequence) + t;
    var t2 := "," + DecimalText(e.timestamp) + t3;
    var t1 := ",\"" + e.userDefined + "\"" + t2;
    var s := ",\"" + HexFixed(e.anchorId, ID_DIGITS) + "\"" + t1;
    assert TrailerText(Written(e)) + t == s by {
      RegroupTrailer(HexFixed(e.anchorId, ID_DIGITS), e.userDefined,
                     DecimalText(e.timestamp), DecimalText(e.sequence), t);
    }
    assert CommaU32(t3) == Done(e.sequence, t) by { CommaU32Text(e.sequence, t); }
    assert CommaU32(t2) == Done(e.timestamp, t3) by { CommaU32Text(e.timestamp, t3); }
    assert CommaQuotedString(t1) == Done(e.userDefined, t2) by { CommaQuotedStringText(e.userDefined, t2); }
    assert CommaQuotedId(s) == Done(e.anchorId, t1) by { CommaQuotedIdText(e.anchorId, t1); }
  }

  /**
   * Round trip: a well-formed measurement written out and followed by any
   * text that does not continue the last number is read back unchanged,
   * with that text left over.
   */
  lemma UudfRoundTrip(e: UudfEvent, t: string)
    requires WellFormed(e) && StopsAt(t, Decimal)
    ensures ParseUudfEvent(FormatUudf(e) + t) == Done(e, t)
  {
    var t2 := TrailerText(Written(e)) + t;
    var t1 := ReadingsText(Written(e)) + t2;
    var id := HexFixed(e.tagId, ID_DIGITS);
    var s := UUDF_TAG + (id + t1);
    assert FormatUudf(e) + t == s by {
      Regroup4(UUDF_TAG, id, ReadingsText(Written(e)), TrailerText(Written(e)), t);
    }
    assert TagP(UUDF_TAG, s) == Done(UUDF_TAG, id + t1) by {
      assert s[|UUDF_TAG|..] == id + t1;
    }
    assert ParseId(id + t1) == Done(e.tagId, t1) by { ParseIdText(e.tagId, t1); }
    assert ParseReadings(t1) == Done((e.rssi, e.angle1, e.angle2, e.reserved, e.channel), t2) by {
      ReadingsRoundTrip(e, t2);
    }
    assert ParseTrailer(t2) == Done((e.anchorId, e.userDefined, e.timestamp, e.sequence), t) by {
      TrailerRoundTrip(e, t);
    }
  }

  /** `from_str` on a written measurement: trailing text such as a line break is ignored. */
  lemma UudfFromStrRoundTrip(e: UudfEvent, t: string)
    requires WellFormed(e) && StopsAt(t, Decimal)
    ensures UudfEventFromStr(FormatUudf(e) + t) == Ok(e)
    ensures HardwareEventFromStr(FormatUudf(e) + t) == Ok(Measurement(e))
  {
    UudfRoundTrip(e, t);
  }

  /** Round trip of a heartbeat: only the tag id survives, the blob is dropped. */
  lemma UudfpRoundTrip(id: nat, blob: string, t: string)
    requires id < ID_BOUND && blob != [] && AllIn(blob, Hexadecimal) && StopsAt(t, Hexadecimal)
    ensures ParseUudfpEvent(FormatUudfp(id, blob) + t) == Done(UudfpEvent(id), t)
    ensures HardwareEventFromStr(FormatUudfp(id, blob) + t) == Ok(Heartbeat(UudfpEvent(id)))
  {
    var d := HexFixed(id, ID_DIGITS);
    var t1 := "," + (blob + t);
    var s := UUDFP_TAG + (d + t1);
    assert FormatUudfp(id, blob) + t == s by {
      Regroup4(UUDFP_TAG, d, ",", blob, t);
    }
    assert TagP(UUDFP_TAG, s) == Done(UUDFP_TAG, d + t1) by {
      assert s[|UUDFP_TAG|..] == d + t1;
    }
    assert ParseId(d + t1) == Done(id, t1) by {
      ParseIdText(id, t1);
    }
    assert CharP(',', t1) == Done(',', blob + t) by {
      assert t1[1..] == blob + t;
    }
    assert HexDigit1(blob + t) == Done(blob, t) by {
      SpanOfPrefix(blob, t, Hexadecimal);
      assert (blob + t)[..|blob|] == blob;
    }
    FromStrChoosesGrammar(s);
  }

  /**
   * What an accepted heartbeat line looks like: the tag, 12 hex digits
   * whose value is the id, a comma, at least one hex digit, and then the
   * rest, which does not start with a hex digit.
   */
  lemma UudfpShape(s: string)
    requires ParseUudfpEvent(s).Done?
    ensures var r := ParseUudfpEvent(s);
      var n := |s| - |r.rest|;
      && n > 20
      && s[..7] == UUDFP_TAG
      && AllIn(s[7..19], Hexadecimal) && Digits(s[7..19], 16) && Value(s[7..19], 16) == r.value.tagId
      && s[19] == ','
      && AllIn(s[20..n], Hexadecimal)
      && s[n..] == r.rest && StopsAt(r.rest, Hexadecimal)
  {
    UudfpIdPart(s);
    var h := HexDigit1(s[20..]);
    var n := 20 + |h.value|;
    assert s[20..] == h.value + h.rest;
    assert s[20..n] == h.value && s[n..] == h.rest;
  }

  /** The steps of an accepted heartbeat line: tag, id, comma, blob. */
  lemma UudfpSteps(s: string)
    requires ParseUudfpEvent(s).Done?
    ensures |s| >= 7 && s[..7] == UUDFP_TAG
    ensures ParseId(s[7..]).Done? && ParseId(s[7..]).value == ParseUudfpEvent(s).value.tagId
    ensures CharP(',', ParseId(s[7..]).rest).Done?
    ensures HexDigit1(CharP(',', ParseId(s[7..]).rest).rest).Done?
    ensures ParseUudfpEvent(s).rest == HexDigit1(CharP(',', ParseId(s[7..]).rest).rest).rest
  {
    assert UUDFP_TAG <= s;
    assert TagP(UUDFP_TAG, s) == Done(UUDFP_TAG, s[7..]);
  }

  /** The part of an accepted heartbeat line before the blob: tag, 12-digit id, comma. */
  lemma UudfpIdPart(s: string)
    requires ParseUudfpEvent(s).Done?
    ensures |s| >= 20 && s[..7] == UUDFP_TAG
    ensures AllIn(s[7..19], Hexadecimal) && Digits(s[7..19], 16) && Value(s[7..19], 16) == ParseUudfpEvent(s).value.tagId
    ensures s[19] == ','
    ensures HexDigit1(s[20..]).Done? && ParseUudfpEvent(s).rest == HexDigit1(s[20..]).rest
  {
    UudfpSteps(s);
    IdThenComma(s);
  }

  /** After the 7-character tag: an accepted id of 12 hex digits, then a comma, leave the text from index 20. */
  lemma IdThenComma(s: string)
    requires |s| >= 7 && ParseId(s[7..]).Done? && CharP(',', ParseId(s[7..]).rest).Done?
    ensures |s| >= 20 && AllIn(s[7..19], Hexadecimal)
    ensures Digits(s[7..19], 16) && Value(s[7..19], 16) == ParseId(s[7..]).value
    ensures s[19] == ',' && CharP(',', ParseId(s[7..]).rest).rest == s[20..]
  {
    var t := s[7..];
    assert Span(t, Hexadecimal) == ID_DIGITS;
    assert t[..ID_DIGITS] == s[7..19];
    assert t[ID_DIGITS..] == s[19..];
  }

  // ---------------------------------------------------------------------
  // What an accepted measurement line looks like
  // ---------------------------------------------------------------------

  /** `p` is a non-empty decimal numeral of value `v`; leading zeros are allowed. */
  predicate UnsignedNumeral(p: string, v: int) {
    p != [] && AllIn(p, Decimal) && Digits(p, 10) && Value(p, 10) == v
  }

  /** `p` is an optional `+` or `-` and a decimal numeral, of value `v` once the sign is applied. */
  predicate SignedNumeral(p: string, v: int) {
    UnsignedNumeral(AfterSign(p), if Negative(p) then -v else v)
  }

  /** `p` is exactly 12 hex digits, in either letter case, of value `v`. */
  predicate IdNumeral(p: string, v: int) {
    |p| == ID_DIGITS && AllIn(p, Hexadecimal) && Digits(p, 16) && Value(p, 16) == v
  }

  /** The field texts `f` spell out the measurement `e`, field by field. */
  predicate Spells(f: UudfText, e: UudfEvent) {
    && IdNumeral(f.tagId, e.tagId)
    && SignedNumeral(f.rssi, e.rssi) && SignedNumeral(f.angle1, e.angle1)
    && SignedNumeral(f.angle2, e.angle2) && SignedNumeral(f.reserved, e.reserved)
    && UnsignedNumeral(f.channel, e.channel)
    && IdNumeral(f.anchorId, e.anchorId)
    && f.userDefined == e.userDefined && AllIn(f.userDefined, Alphanumeric)
    && UnsignedNumeral(f.timestamp, e.timestamp) && UnsignedNumeral(f.sequence, e.sequence)
  }

  /** What `i32` consumed is a signed numeral of the value it returned. */
  lemma I32Piece(s: string) returns (p: string)
    requires I32(s).Done?
    ensures s == p + I32(s).rest && SignedNumeral(p, I32(s).value)
  {
    var r := I32(s);
    var d := DigitRun(AfterSign(s));
    assert AfterSign(s) == d + r.rest && d != [];
    if AfterSign(s) == s {
      p := d;
      assert !Negative(s) && AfterSign(p) == p && !Negative(p) by {
        assert s[0] == d[0] && IsDecDigit(d[0]);
      }
    } else {
      p := [s[0]] + d;
      assert s == p + r.rest by {
        assert s == [s[0]] + s[1..];
      }
      assert AfterSign(p) == d && Negative(p) == Negative(s) by {
        assert p[0] == s[0] && p[1..] == d;
      }
    }
  }

  /** What `u32` consumed is an unsigned numeral of the value it returned. */
  lemma U32Piece(s: string) returns (p: string)
    requires U32(s).Done?
    ensures s == p + U32(s).rest && UnsignedNumeral(p, U32(s).value)
    ensures StopsAt(U32(s).rest, Decimal)
  {
    p := DigitRun(s);
  }

  /** `preceded(char(','), p)` succeeds only on a comma followed by what `p` accepts. */
  lemma CommaStep(s: string)
    requires CharP(',', s).Done?
    ensures s == [','] + s[1..] && CharP(',', s).rest == s[1..]
  {}

  /** A comma before `p + t` is the comma-led `p`, then `t`. */
  lemma CommaBefore(s: string, p: string, t: string)
    requires s == [','] + (p + t)
    ensures s == "," + p + t
  {}

  lemma CommaI32Piece(s: string) returns (p: string)
    requires CommaI32(s).Done?
    ensures s == "," + p + CommaI32(s).rest && SignedNumeral(p, CommaI32(s).value)
  {
    var u := s[1..];
    assert I32(u).Done? && CommaI32(s).value == I32(u).value && CommaI32(s).rest == I32(u).rest by {
      CommaStep(s);
    }
    p := I32Piece(u);
    CommaStep(s);
    CommaBefore(s, p, I32(u).rest);
  }

  lemma CommaU32Piece(s: string) returns (p: string)
    requires CommaU32(s).Done?
    ensures s == "," + p + CommaU32(s).rest && UnsignedNumeral(p, CommaU32(s).value)
    ensures StopsAt(CommaU32(s).rest, Decimal)
  {
    var u := s[1..];
    assert U32(u).Done? && CommaU32(s).value == U32(u).value && CommaU32(s).rest == U32(u).rest by {
      CommaStep(s);
    }
    p := U32Piece(u);
    CommaStep(s);
    CommaBefore(s, p, U32(u).rest);
  }

  lemma CommaQuotedIdPiece(s: string) returns (p: string)
    requires CommaQuotedId(s).Done?
    ensures s == ",\"" + p + "\"" + CommaQuotedId(s).rest && IdNumeral(p, CommaQuotedId(s).value)
  {
    assert CharP(',', s).Done?;
    var u := s[1..];
    var q := ParseQuotedId(u);
    p := u[1..ID_DIGITS + 1];
    assert u == [u[0]] + p + [u[ID_DIGITS + 1]] + q.rest;
    assert s == [','] + u;
  }

  lemma CommaQuotedStringPiece(s: string)
    requires CommaQuotedString(s).Done?
    ensures s == ",\"" + CommaQuotedString(s).value + "\"" + CommaQuotedString(s).rest
  {
    var u := s[1..];
    assert ParseQuotedString(u).Done? && CommaQuotedString(s) == ParseQuotedString(u) by {
      CommaStep(s);
    }
    var q := ParseQuotedString(u);
    CommaStep(s);
    CommaQuoted(s, q.value, q.rest);
  }

  /** A comma before a quoted `p` and `t` is the comma-led quoted `p`, then `t`. */
  lemma CommaQuoted(s: string, p: string, t: string)
    requires s == [','] + ("\"" + p + "\"" + t)
    ensures s == ",\"" + p + "\"" + t
  {}

  /** The five readings of an accepted line, as numerals of the values read. */
  lemma ReadingsPieces(s: string) returns (a: string, b: string, c: string, d: string, f: string)
    requires ParseReadings(s).Done?
    ensures var r := ParseReadings(s);
      && s == "," + a + "," + b + "," + c + "," + d + "," + f + r.rest
      && SignedNumeral(a, r.value.0) && SignedNumeral(b, r.value.1)
      && SignedNumeral(c, r.value.2) && SignedNumeral(d, r.value.3)
      && UnsignedNumeral(f, r.value.4)
      && StopsAt(r.rest, Decimal)
  {
    var r1 := CommaI32(s);
    a := CommaI32Piece(s);
    var r2 := CommaI32(r1.rest);
    b := CommaI32Piece(r1.rest);
    var r3 := CommaI32(r2.rest);
    c := CommaI32Piece(r2.rest);
    var r4 := CommaI32(r3.rest);
    d := CommaI32Piece(r3.rest);
    var r5 := CommaU32(r4.rest);
    f := CommaU32Piece(r4.rest);
    Regroup5(a, b, c, d, f, r5.rest);
  }

  /** The four trailer fields of an accepted line, as the texts of the values read. */
  lemma TrailerPieces(s: string) returns (id: string, ts: string, sq: string)
    requires ParseTrailer(s).Done?
    ensures var r := ParseTrailer(s);
      && s == ",\"" + id + "\",\"" + r.value.1 + "\"," + ts + "," + sq + r.rest
      && IdNumeral(id, r.value.0) && UnsignedNumeral(ts, r.value.2) && UnsignedNumeral(sq, r.value.3)
      && StopsAt(r.rest, Decimal)
  {
    var r1 := CommaQuotedId(s);
    id := CommaQuotedIdPiece(s);
    var r2 := CommaQuotedString(r1.rest);
    CommaQuotedStringPiece(r1.rest);
    var r3 := CommaU32(r2.rest);
    ts := CommaU32Piece(r2.rest);
    var r4 := CommaU32(r3.rest);
    sq := CommaU32Piece(r3.rest);
    RegroupTrailer(id, r2.value, ts, sq, r4.rest);
  }

  /** The steps of an accepted measurement line: tag, id, readings, trailer. */
  lemma UudfSteps(s: string)
    requires ParseUudfEvent(s).Done?
    ensures |s| >= 6 && s[..6] == UUDF_TAG
    ensures var id := ParseId(s[6..]);
      && id.Done? && ParseReadings(id.rest).Done?
      && var rd := ParseReadings(id.rest);
      && ParseTrailer(rd.rest).Done?
      && var tr := ParseTrailer(rd.rest);
      && var e := ParseUudfEvent(s).value;
      && e.tagId == id.value
      && e.rssi == rd.value.0 && e.angle1 == rd.value.1 && e.angle2 == rd.value.2
      && e.reserved == rd.value.3 && e.channel == rd.value.4
      && e.anchorId == tr.value.0 && e.userDefined == tr.value.1
      && e.timestamp == tr.value.2 && e.sequence == tr.value.3
      && ParseUudfEvent(s).rest == tr.rest
  {
    assert UUDF_TAG <= s;
    assert TagP(UUDF_TAG, s) == Done(UUDF_TAG, s[6..]);
  }

  /** After the measurement tag, an accepted id is 12 hex digits spelling its value. */
  lemma IdHead(s: string) returns (idText: string)
    requires |s| >= 6 && s[..6] == UUDF_TAG && ParseId(s[6..]).Done?
    ensures s == UUDF_TAG + (idText + ParseId(s[6..]).rest) && IdNumeral(idText, ParseId(s[6..]).value)
  {
    var u := s[6..];
    idText := u[..ID_DIGITS];
    assert u == idText + ParseId(u).rest;
    assert s == UUDF_TAG + u;
  }

  /** A line cut into the tag, the tag id, the readings and the trailer is the line of those field texts. */
  lemma LineOfPieces(s: string, f: UudfText, t1: string, t2: string, rest: string)
    requires s == UUDF_TAG + (f.tagId + t1)
    requires t1 == "," + f.rssi + "," + f.angle1 + "," + f.angle2 + "," + f.reserved + "," + f.channel + t2
    requires t2 == ",\"" + f.anchorId + "\",\"" + f.userDefined + "\"," + f.timestamp + "," + f.sequence + rest
    ensures s == LineText(f) + rest
  {
    Regroup4(UUDF_TAG, f.tagId, ReadingsText(f), TrailerText(f), rest);
  }

  /**
   * What an accepted measurement line looks like: the tag, then the text
   * of each of the ten fields in the grammar's order, each spelling the
   * value the event carries (12 hex digits for the ids, a decimal numeral
   * with an optional sign for the readings, a plain numeral for the
   * unsigned fields, the user field verbatim between quotes), then the
   * rest, which does not start with a digit.
   */
  lemma UudfShape(s: string)
    requires ParseUudfEvent(s).Done?
    ensures var r := ParseUudfEvent(s);
      && (exists f :: Spells(f, r.value) && s == LineText(f) + r.rest)
      && StopsAt(r.rest, Decimal)
  {
    UudfSteps(s);
    var r := ParseUudfEvent(s);
    var id := ParseId(s[6..]);
    var idText := IdHead(s);
    var rd := ParseReadings(id.rest);
    var a, b, c, d, ch := ReadingsPieces(id.rest);
    var tr := ParseTrailer(rd.rest);
    var aid, ts, sq := TrailerPieces(rd.rest);
    var f := UudfText(idText, a, b, c, d, ch, aid, tr.value.1, ts, sq);
    LineOfPieces(s, f, id.rest, rd.rest, r.rest);
    assert Spells(f, r.value);
  }

  /** A measurement tag followed by a hex run of any length other than 12 aborts. */
  lemma WrongIdLengthPanics(d: string, t: string)
    requires AllIn(d, Hexadecimal) && |d| !in {0, ID_DIGITS} && StopsAt(t, Hexadecimal)
    ensures ParseUudfEvent(UUDF_TAG + d + t) == Panic
    ensures HardwareEventFromStr(UUDF_TAG + d + t) == Panicked
  {
    assert (UUDF_TAG + d + t)[|UUDF_TAG|..] == d + t;
    SpanOfPrefix(d, t, Hexadecimal);
  }

  /**
   * A failure reports the input where it happened: after a good tag and
   * id, a missing comma is reported at the text following the id.
   */
  lemma MissingCommaError(n: nat, t: string)
    requires n < ID_BOUND && StopsAt(t, Hexadecimal) && (t == [] || t[0] != ',')
    ensures ParseUudfEvent(UUDF_TAG + HexFixed(n, ID_DIGITS) + t) == Fail(ParseError(t, Char))
  {
    var d := HexFixed(n, ID_DIGITS);
    assert (UUDF_TAG + d + t)[|UUDF_TAG|..] == d + t;
    ParseIdText(n, t);
  }
}
