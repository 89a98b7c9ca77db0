/**
 Decoding COPY BINARY string columns: a general decoder with back-references and bounded
 expansion, and a fast decoder for columns without them.
 */
module StringDecoder {
  import opened Arithmetic
  import opened Bytes
  import opened Sequences
  import opened StringEncoder
  import opened RowDecoder

  datatype Distance = Distance(rows: nat, used: nat) | NoDistance

  // ----- Long references -----

  /** At most `left` base-128 digits, least significant first; the last one is below 128. */
  function Digits(s: ByteString, left: nat): (d: Distance)
    ensures d.Distance? ==> 1 <= d.used <= |s|
  {
    if s == [] || left == 0 then NoDistance
    else if s[0] < 128 then Distance(s[0], 1)
    else
      var rest := Digits(s[1..], left - 1);
      if rest.NoDistance? then NoDistance else Distance(s[0] % 128 + 128 * rest.rows, 1 + rest.used)
  }

  const MAX_DIGITS: nat := 10

  /** A distance that fits 64 bits. */
  function LongDistance(s: ByteString): (d: Distance)
    ensures d.Distance? ==> 1 <= d.used <= |s|
  {
    var d := Digits(s, MAX_DIGITS);
    if d.Distance? && d.rows <= USIZE_MAX then d else NoDistance
  }

  function Pow128(k: nat): (p: nat)
    ensures p >= 1
  {
    if k == 0 then 1 else 128 * Pow128(k - 1)
  }

  lemma OverQuotient(low: nat, p: nat, total: nat)
    requires p >= 1
    ensures low > total / p <==> low * p > total
  {
    assert total == total / p * p + total % p;
    if low > total / p {
      MulMono(total / p + 1, low, p);
    } else {
      MulMono(low, total / p, p);
    }
  }

  /** `rest` read after `k` digits that gave `distance`, its own digits weighing `p` times more. */
  function Weighted(distance: nat, rest: Distance, p: nat, k: nat): (d: Distance)
    ensures d.Distance? ==> d.rows >= distance
  {
    if rest.NoDistance? then NoDistance
    else
      MulMono(0, rest.rows, p);
      Distance(distance + rest.rows * p, k + rest.used)
  }

  lemma WeightedDigit(distance: nat, low: nat, rest: Distance, p: nat, k: nat)
    requires rest.Distance?
    ensures low * p >= 0
    ensures Weighted(distance, Distance(low + 128 * rest.rows, 1 + rest.used), p, k)
         == Weighted(distance + low * p, rest, 128 * p, k + 1)
  {
    var high := rest.rows;
    assert (128 * high) * p == high * (128 * p);
    assert (low + 128 * high) * p == low * p + (128 * high) * p;
  }

  /** The digits of `s` from `k` on complete what the first `k` digits gave. */
  ghost predicate Accumulated(s: ByteString, k: nat, distance: nat, p: nat)
    requires k <= |s| && k <= MAX_DIGITS
  {
    Digits(s, MAX_DIGITS) == Weighted(distance, Digits(s[k..], MAX_DIGITS - k), p, k)
  }

  lemma AccumulateDigit(s: ByteString, k: nat, distance: nat, p: nat, sum: nat)
    requires k < |s| && k < MAX_DIGITS && s[k] >= 128 && Accumulated(s, k, distance, p)
    requires sum == distance + s[k] % 128 * p
    ensures Accumulated(s, k + 1, sum, 128 * p)
  {
    assert s[k..][1..] == s[k + 1..];
    var rest := Digits(s[k + 1..], MAX_DIGITS - (k + 1));
    if rest.Distance? {
      WeightedDigit(distance, s[k] % 128, rest, p, k);
    }
  }

  lemma AccumulateLast(s: ByteString, k: nat, distance: nat, p: nat)
    requires k < |s| && k < MAX_DIGITS && s[k] < 128 && Accumulated(s, k, distance, p)
    ensures Digits(s, MAX_DIGITS) == Weighted(distance, Distance(s[k], 1), p, k)
  {
  }

  /** Adds one digit without leaving 64 bits, or says that it would. */
  method AddDigit(distance: nat, low: nat, weight: nat) returns (fits: bool, sum: nat)
    requires weight >= 1 && distance <= USIZE_MAX
    ensures sum == distance + low * weight && (fits <==> sum <= USIZE_MAX)
  {
    OverQuotient(low, weight, USIZE_MAX);
    fits := low <= USIZE_MAX / weight;
    var part: nat := low * weight;
    sum := distance + part;
    fits := fits && sum <= USIZE_MAX;
  }

  /** Nothing that follows brings a distance back into 64 bits, and there is no eleventh digit. */
  lemma NoWayBack(s: ByteString, k: nat, distance: nat, p: nat)
    requires k <= |s| && k <= MAX_DIGITS && Accumulated(s, k, distance, p)
    requires distance > USIZE_MAX || k == MAX_DIGITS || k == |s|
    ensures LongDistance(s) == NoDistance
  {
  }

  lemma LastDigit(s: ByteString, k: nat, distance: nat, p: nat, sum: nat)
    requires k < |s| && k < MAX_DIGITS && s[k] < 128 && Accumulated(s, k, distance, p)
    requires sum == distance + s[k] % 128 * p
    ensures LongDistance(s) == if sum <= USIZE_MAX then Distance(sum, k + 1) else NoDistance
  {
    AccumulateLast(s, k, distance, p);
  }

  /** The decoder's loop over weighted digits, in 64 bits, reads the same distance. */
  method LongBackref(s: ByteString) returns (r: Distance)
    ensures r == LongDistance(s)
  {
    var distance: nat, weight: nat := 0, 1;
    var k: nat := 0;
    AccumulateNone(s);
    while k < |s|
      invariant k <= |s| && k < MAX_DIGITS && weight >= 1 && distance <= USIZE_MAX
      invariant Accumulated(s, k, distance, weight)
    {
      var low: nat := s[k] % 128;
      var fits, sum := AddDigit(distance, low, weight);
      if s[k] < 128 {
        LastDigit(s, k, distance, weight, sum);
        return if fits then Distance(sum, k + 1) else NoDistance;
      }
      AccumulateDigit(s, k, distance, weight, sum);
      if !fits || 7 * (k + 1) >= 64 {
        NoWayBack(s, k + 1, sum, 128 * weight);
        return NoDistance;
      }
      distance, weight, k := sum, 128 * weight, k + 1;
    }
    NoWayBack(s, k, distance, weight);
    r := NoDistance;
  }

  lemma AccumulateNone(s: ByteString)
    ensures Accumulated(s, 0, 0, 1)
  {
    Whole(s);
  }

  // ----- One value -----

  function FindNul(s: ByteString): (n: nat)
    ensures n <= |s| && (n < |s| ==> s[n] == 0)
    ensures forall i :: 0 <= i < n ==> s[i] != 0
  {
    if s == [] || s[0] == 0 then 0 else 1 + FindNul(s[1..])
  }

  /** The value at the head of `s` and the bytes it takes, given the earlier rows. */
  function ReadValue(s: ByteString, history: Column): Reading {
    var row := |history|;
    if s == [] then Unreadable(Length(1, 0))
    else if s[0] == 0x80 then
      var long := LongDistance(s[1..]);
      if long.NoDistance? then Unreadable(InvalidBackref(row))
      else if long.rows == 0 then Value(Null, long.used + 1)
      else if long.rows > row then Unreadable(InvalidBackref(row))
      else Value(history[row - long.rows], long.used + 1)
    else if Tail(s[0]) then
      if s[0] - 0x80 > row then Unreadable(InvalidBackref(row)) else Value(history[row - (s[0] - 0x80)], 1)
    else ReadLiteral(s, row)
  }

  function ReadLiteral(s: ByteString, row: nat): Reading {
    var end := FindNul(s);
    if end == |s| then Unreadable(NotTerminated(row))
    else if !Utf8(s[..end]) then Unreadable(InvalidUtf8(row))
    else Value(Text(s[..end]), end + 1)
  }

  function ReadPlain(s: ByteString, row: nat): Plain {
    if s == [] then Plain(Unreadable(Length(1, 0)))
    else if s[0] == 0x80 then
      var long := LongDistance(s[1..]);
      if long.NoDistance? then Plain(Unreadable(InvalidBackref(row)))
      else if long.rows != 0 then Reference
      else Plain(Value(Null, long.used + 1))
    else if Tail(s[0]) then Reference
    else Plain(ReadLiteral(s, row))
  }

  lemma ReadersAgree()
    ensures Advances(ReadValue) && PlainAdvances(ReadPlain) && Agrees(ReadPlain, ReadValue)
  {
  }

  // ----- Columns -----

  /** The size a decoded column may reach: 32-bit offsets, and 16 times the wire size or 1 MiB. */
  function Bound(wire: nat): nat {
    var limit := if wire * 16 >= 1024 * 1024 then wire * 16 else 1024 * 1024;
    if limit <= I32_MAX then limit else I32_MAX
  }

  ghost function General(bytes: ByteString, rows: nat): Decoding {
    ReadersAgree();
    DecodeFrom(ReadValue, bytes, 0, rows, [], 0, Bound(|bytes|))
  }

  /** A column's decoding, whichever decoder gives it. */
  ghost function ColumnOf(bytes: ByteString, rows: nat): Decoding {
    if rows > |bytes| then Failed(TooManyRows)
    else if |bytes| > I32_MAX then Failed(ColumnTooLarge)
    else General(bytes, rows)
  }

  /** The fast decoder first, the general one when it declines. */
  method DecodeStrings(bytes: ByteString, rows: nat) returns (r: Decoding)
    ensures r == ColumnOf(bytes, rows)
  {
    if rows > |bytes| {
      return Failed(TooManyRows);
    }
    if |bytes| > I32_MAX {
      return Failed(ColumnTooLarge);
    }
    ReadersAgree();
    var fast := FastRows(ReadPlain, bytes, rows);
    if fast.Answer? {
      FastRefinesGeneral(ReadPlain, ReadValue, bytes, 0, rows, [], 0, Bound(|bytes|));
      return fast.decoding;
    }
    r := DecodeRows(ReadValue, bytes, rows, Bound(|bytes|));
  }
}
