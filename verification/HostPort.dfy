/**
 * The host-port text of section 5.3.2 of RFC 959 as FtpOpenPort prints it for PORT and scans it
 * out of the reply to PASV. The six octets live in positions 0..5 of `sa_data`: the port in 0 and
 * 1, the address in 2 to 5.
 */
module HostPort {
  import opened Bytes

  /** Six octets of a socket address. */
  type Address = a: seq<byte> | |a| == 6 witness [0, 0, 0, 0, 0, 0]

  const COMMA: byte := 44
  const PAREN: byte := 40

  datatype Scan<T> = NoMatch | Scanned(value: T, rest: seq<byte>)

  predicate IsSpace(b: byte) {
    b == 32 || 9 <= b <= 13
  }

  /** printf("%d") of a number that is not negative. */
  function Decimal(n: nat): (r: seq<byte>)
    ensures r != [] && IsDigit(r[0])
    ensures n < 1000 ==> |r| <= 3
    ensures n < 100 ==> |r| <= 2
  {
    if n < 10 then [DIGIT0 + n] else Decimal(n / 10) + [DIGIT0 + n % 10]
  }

  /** The decimal digits of an octet, or of any number below a thousand. */
  lemma DecimalDigits(n: nat)
    requires n < 1000
    ensures Decimal(n) ==
      if n < 10 then [48 + n] else if n < 100 then [48 + n / 10, 48 + n % 10]
      else [48 + n / 100, 48 + n / 10 % 10, 48 + n % 10]
  {
  }

  function Digits(value: nat, s: seq<byte>): (r: (nat, seq<byte>))
    decreases |s|
  {
    if s != [] && IsDigit(s[0]) then Digits(10 * value + (s[0] - DIGIT0), s[1..]) else (value, s)
  }

  /** sscanf("%u"): white space, then at least one digit. */
  function Number(s: seq<byte>): (r: Scan<nat>)
    decreases |s|
  {
    if s == [] then NoMatch
    else if IsSpace(s[0]) then Number(s[1..])
    else if IsDigit(s[0]) then var (v, rest) := Digits(0, s); Scanned(v, rest)
    else NoMatch
  }

  /** sscanf("%u,%u,...") with the given number of fields. */
  function Numbers(count: nat, s: seq<byte>): (r: Scan<seq<nat>>)
    ensures r.Scanned? ==> |r.value| == count
    decreases count
  {
    if count == 0 then Scanned([], s) else
    var first := Number(s);
    if first.NoMatch? then NoMatch
    else if count == 1 then Scanned([first.value], first.rest)
    else if first.rest == [] || first.rest[0] != COMMA then NoMatch
    else
      var others := Numbers(count - 1, first.rest[1..]);
      if others.NoMatch? then NoMatch else Scanned([first.value] + others.value, others.rest)
  }

  function Joined(values: seq<byte>): (r: seq<byte>) {
    if values == [] then []
    else if |values| == 1 then Decimal(values[0])
    else Decimal(values[0]) + ([COMMA] + Joined(values[1..]))
  }

  /** The arguments of the PORT command. */
  function HostPortText(sa: seq<byte>): (r: seq<byte>)
    requires |sa| == 6
  {
    Joined([sa[2], sa[3], sa[4], sa[5], sa[0], sa[1]])
  }

  const FIELD_COUNT: nat := 6

  /** What FtpOpenPort stores in sa_data after scanning s; a number is cut to one octet. */
  function ScanHostPort(s: seq<byte>): (r: Scan<seq<byte>>) {
    var v := Numbers(FIELD_COUNT, s);
    if v.NoMatch? then NoMatch
    else Scanned(Placed(v.value), v.rest)
  }

  /** The four address numbers and the two port numbers in their positions of sa_data. */
  function Placed(v: seq<nat>): (sa: seq<byte>)
    requires |v| == 6
  {
    [v[4] % 256, v[5] % 256, v[0] % 256, v[1] % 256, v[2] % 256, v[3] % 256]
  }

  /** strchr(s, '(') + 1 */
  function AfterParen(s: seq<byte>): (r: Scan<()>) {
    if s == [] then NoMatch
    else if s[0] == PAREN then Scanned((), s[1..])
    else AfterParen(s[1..])
  }

  lemma {:induction false} DigitsOfDecimal(n: nat, tail: seq<byte>)
    ensures Digits(0, Decimal(n) + tail) == Digits(n, tail)
  {
    if n < 10 {
      assert (Decimal(n) + tail)[1..] == tail;
    } else {
      var d: byte := DIGIT0 + n % 10;
      assert Decimal(n) + tail == Decimal(n / 10) + ([d] + tail);
      DigitsOfDecimal(n / 10, [d] + tail);
      assert ([d] + tail)[1..] == tail;
    }
  }

  lemma NumberOfDecimal(n: nat, tail: seq<byte>)
    requires tail == [] || !IsDigit(tail[0])
    ensures Number(Decimal(n) + tail) == Scanned(n, tail)
  {
    DigitsOfDecimal(n, tail);
    assert (Decimal(n) + tail)[0] == Decimal(n)[0];
  }

  lemma NumbersStep(n: byte, count: nat, more: seq<byte>)
    requires count > 0 && Numbers(count, more).Scanned?
    ensures var others := Numbers(count, more);
            Numbers(count + 1, Decimal(n) + ([COMMA] + more)) == Scanned([n] + others.value, others.rest)
  {
    NumberOfDecimal(n, [COMMA] + more);
    assert ([COMMA] + more)[1..] == more;
  }

  lemma JoinedStep(values: seq<byte>, tail: seq<byte>)
    requires |values| > 1
    ensures Joined(values) + tail == Decimal(values[0]) + ([COMMA] + (Joined(values[1..]) + tail))
  {
    ConcatAssociative(Decimal(values[0]), [COMMA] + Joined(values[1..]), tail);
    ConcatAssociative([COMMA], Joined(values[1..]), tail);
  }

  lemma {:induction false} NumbersOfJoined(values: seq<byte>, tail: seq<byte>)
    requires values != [] && (tail == [] || !IsDigit(tail[0]))
    ensures Numbers(|values|, Joined(values) + tail) == Scanned(values, tail)
  {
    if |values| == 1 {
      NumberOfDecimal(values[0], tail);
      assert values == [values[0]];
    } else {
      var more := Joined(values[1..]) + tail;
      JoinedStep(values, tail);
      NumbersOfJoined(values[1..], tail);
      NumbersStep(values[0], |values| - 1, more);
      assert values == [values[0]] + values[1..];
    }
  }

  lemma {:induction false} AfterParenAt(before: seq<byte>, s: seq<byte>)
    requires PAREN !in before
    ensures AfterParen(before + [PAREN] + s) == Scanned((), s)
  {
    if before == [] {
      assert before + [PAREN] + s == [PAREN] + s && ([PAREN] + s)[1..] == s;
    } else {
      assert (before + [PAREN] + s)[1..] == before[1..] + [PAREN] + s;
      AfterParenAt(before[1..], s);
    }
  }

  /**
   * For all six octets: a PASV reply that carries them as PORT prints them, after any text without
   * a parenthesis and before anything but a digit, puts each back in its position of sa_data.
   */
  lemma HostPortRoundTrip(sa: seq<byte>, before: seq<byte>, tail: seq<byte>)
    requires |sa| == 6 && PAREN !in before && (tail == [] || !IsDigit(tail[0]))
    ensures var at := AfterParen(before + [PAREN] + (HostPortText(sa) + tail));
            at.Scanned? && ScanHostPort(at.rest) == Scanned(sa, tail)
  {
    AfterParenAt(before, HostPortText(sa) + tail);
    FieldsRoundTrip(sa, [sa[2], sa[3], sa[4], sa[5], sa[0], sa[1]], tail);
  }

  lemma FieldsRoundTrip(sa: seq<byte>, fields: seq<byte>, tail: seq<byte>)
    requires |sa| == 6 && fields == [sa[2], sa[3], sa[4], sa[5], sa[0], sa[1]]
    requires tail == [] || !IsDigit(tail[0])
    ensures ScanHostPort(Joined(fields) + tail) == Scanned(sa, tail)
  {
    NumbersOfJoined(fields, tail);
    PlacedBack(sa, fields);
  }

  lemma PlacedBack(sa: seq<byte>, fields: seq<byte>)
    requires |sa| == 6 && fields == [sa[2], sa[3], sa[4], sa[5], sa[0], sa[1]]
    ensures Placed(fields) == sa
  {
    assert sa == [sa[0], sa[1], sa[2], sa[3], sa[4], sa[5]];
  }

  lemma {:induction false} JoinedLength(values: seq<byte>)
    ensures |Joined(values)| <= 4 * |values|
  {
    if |values| > 1 {
      JoinedLength(values[1..]);
    }
  }
}
