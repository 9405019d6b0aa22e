/** The Protocol Buffers wire format ("Encoding", sections "Base 128 Varints", "Message Structure",
    "Length-Delimited Records"): varints, tags and records, with no knowledge of any message. */
module Wire {
  import opened Wrappers
  import opened Division

  type Byte = b: int | 0 <= b < 256
  type Bytes = seq<Byte>

  const INT_MAX: int := 0x7FFF_FFFF
  const TWO_32: int := 0x1_0000_0000
  const TWO_63: int := 0x8000_0000_0000_0000
  const TWO_64: int := 0x1_0000_0000_0000_0000

  type Int64 = v: int | -TWO_63 <= v < TWO_63

  // ----- varints --------------------------------------------------------------------------

  function Varint(n: nat): Bytes {
    if n < 128 then [n] else [n % 128 + 128] + Varint(n / 128)
  }

  /** The number of bytes a size computation reserves for a varint. */
  function VarintSize(n: nat): nat {
    if n < 0x80 then 1
    else if n < 0x4000 then 2
    else if n < 0x20_0000 then 3
    else if n < 0x1000_0000 then 4
    else 4 + VarintSize(n / 0x1000_0000)
  }

  /** Reads a varint of at most `limit` bytes; the result also has the bytes after it. */
  function ReadVarint(s: Bytes, limit: nat): (r: Option<(nat, Bytes)>)
    ensures r.Some? ==> |r.value.1| < |s|
    decreases |s|
  {
    if limit == 0 || s == [] then None
    else if s[0] < 128 then Some((s[0], s[1..]))
    else match ReadVarint(s[1..], limit - 1)
      case None => None
      case Some((high, rest)) => Some((s[0] - 128 + 128 * high, rest))
  }

  ghost function Pow128(k: nat): nat {
    if k == 0 then 1 else 128 * Pow128(k - 1)
  }

  lemma {:induction false} VarintSizeIsLength(n: nat)
    ensures |Varint(n)| == VarintSize(n)
  {
    if n >= 0x1000_0000 {
      var a, b, c := n / 128, n / 128 / 128, n / 128 / 128 / 128;
      assert c / 128 == n / 0x1000_0000;
      assert |Varint(n)| == 1 + |Varint(a)|;
      assert |Varint(b)| == 1 + |Varint(c)|;
      VarintSizeIsLength(c / 128);
    } else if n >= 0x80 {
      VarintSizeIsLength(n / 128);
    }
  }

  /** A varint has the least number of bytes whose seven-bit groups can hold the value. */
  lemma {:induction false} VarintIsMinimal(n: nat)
    ensures n < Pow128(|Varint(n)|)
    ensures |Varint(n)| > 1 ==> Pow128(|Varint(n)| - 1) <= n
  {
    if n >= 128 { VarintIsMinimal(n / 128); }
  }

  lemma {:induction false} VarintLengthBound(n: nat, k: nat)
    requires 1 <= k && n < Pow128(k)
    ensures |Varint(n)| <= k
  {
    if n >= 128 { VarintLengthBound(n / 128, k - 1); }
  }

  lemma {:induction false} VarintRoundTrip(n: nat, limit: nat, t: Bytes)
    requires |Varint(n)| <= limit
    ensures ReadVarint(Varint(n) + t, limit) == Some((n, t))
  {
    if n >= 128 {
      VarintRoundTrip(n / 128, limit - 1, t);
      assert (Varint(n) + t)[1..] == Varint(n / 128) + t;
    }
  }

  /** "Base 128 Varints", byte by byte: seven bits of the number in each byte, least significant
      group first, and the top bit set in all bytes but the last. */
  lemma {:induction false} VarintGroups(n: nat, i: nat)
    requires i < |Varint(n)|
    ensures Pow128(i) > 0 && Varint(n)[i] % 128 == (n / Pow128(i)) % 128
    ensures Varint(n)[i] >= 128 <==> i < |Varint(n)| - 1
  {
    PowPositive(i);
    if i > 0 {
      VarintGroups(n / 128, i - 1);
      assert Varint(n)[i] == Varint(n / 128)[i - 1];
      DivideTwice(n, 128, Pow128(i - 1));
    }
  }

  lemma {:induction false} PowPositive(k: nat)
    ensures Pow128(k) > 0
  {
    if k > 0 { PowPositive(k - 1); }
  }

  /** Byte `i` of `s` holds the i-th group of `n`. */
  ghost predicate HasGroup(s: Bytes, i: nat, n: nat) {
    i < |s| && Pow128(i) > 0 && (n / Pow128(i)) % 128 == s[i] % 128
  }

  lemma NextGroup(s: Bytes, i: nat, n: nat)
    requires s != [] && 0 < i && HasGroup(s[1..], i - 1, n / 128)
    ensures HasGroup(s, i, n)
  {
    assert s[i] == s[1..][i - 1];
    PowPositive(i);
    DivideTwice(n, 128, Pow128(i - 1));
  }

  /** What a reader makes of any bytes, canonical or not: the bytes up to the first one without the
      top bit are the groups of the number, least significant first. */
  lemma {:induction false} ReadGroups(s: Bytes, limit: nat, i: nat)
    requires ReadVarint(s, limit).Some? && i < |s| - |ReadVarint(s, limit).value.1|
    ensures HasGroup(s, i, ReadVarint(s, limit).value.0)
    ensures s[i] >= 128 <==> i < |s| - |ReadVarint(s, limit).value.1| - 1
    decreases |s|
  {
    if s[0] >= 128 {
      FirstGroup(s[0] - 128, ReadVarint(s[1..], limit - 1).value.0);
      if i > 0 {
        ReadGroups(s[1..], limit - 1, i - 1);
        NextGroup(s, i, ReadVarint(s, limit).value.0);
      }
    }
  }

  lemma FirstGroup(low: nat, high: nat)
    requires low < 128
    ensures (low + 128 * high) / 128 == high && (low + 128 * high) % 128 == low
  {
  }

  /** It takes at most `limit` bytes, leaves the rest as it is, and reads no more than they hold. */
  lemma {:induction false} ReadExtent(s: Bytes, limit: nat)
    requires ReadVarint(s, limit).Some?
    ensures var (n, rest) := ReadVarint(s, limit).value;
            1 <= |s| - |rest| <= limit && rest == s[|s| - |rest|..] && n < Pow128(|s| - |rest|)
    decreases |s|
  {
    if s[0] >= 128 { ReadExtent(s[1..], limit - 1); }
  }

  /** Reading fails exactly when no byte within the limit ends the number. */
  lemma {:induction false} ReadFails(s: Bytes, limit: nat)
    ensures ReadVarint(s, limit).None? <==> forall i | 0 <= i < |s| && i < limit :: s[i] >= 128
    decreases |s|
  {
    if limit > 0 && s != [] && s[0] >= 128 {
      ReadFails(s[1..], limit - 1);
      assert forall i | 0 <= i < |s| - 1 :: s[1..][i] == s[i + 1];
      assert forall i | 1 <= i < |s| :: s[i] == s[1..][i - 1];
    }
  }

  lemma {:induction false} VarintInjective(m: nat, n: nat)
    requires Varint(m) == Varint(n)
    ensures m == n
  {
    VarintRoundTrip(m, |Varint(m)|, []);
    VarintRoundTrip(n, |Varint(n)|, []);
  }

  lemma {:induction false} ReadVarintPrefix(s: Bytes, t: Bytes, limit: nat)
    requires ReadVarint(s, limit).Some?
    ensures ReadVarint(s + t, limit) == Some((ReadVarint(s, limit).value.0, ReadVarint(s, limit).value.1 + t))
  {
    assert (s + t)[1..] == s[1..] + t;
    if s[0] >= 128 { ReadVarintPrefix(s[1..], t, limit - 1); }
  }

  // ----- 64-bit integers ------------------------------------------------------------------

  /** The two's complement view of an int64 that its varint encodes. */
  function ToUnsigned(v: Int64): (n: nat)
    ensures n < TWO_64
  {
    if v < 0 then v + TWO_64 else v
  }

  function ToSigned(n: nat): (v: Int64)
    requires n < TWO_64
    ensures ToUnsigned(v) == n
  {
    if n >= TWO_63 then n - TWO_64 else n
  }

  /** Negative numbers are sent as their two's complement of 64 bits. */
  lemma TwosComplement(v: Int64)
    ensures (ToUnsigned(v) - v) % TWO_64 == 0 && 0 <= ToUnsigned(v) < TWO_64
    ensures ToSigned(ToUnsigned(v)) == v
  {
  }

  lemma Pow128Values()
    ensures Pow128(5) == 0x8_0000_0000
    ensures Pow128(9) == TWO_63
    ensures Pow128(10) == 128 * TWO_63
  {
    assert Pow128(3) == 0x20_0000;
    assert Pow128(5) == 128 * 128 * Pow128(3);
    assert Pow128(7) == 128 * 128 * Pow128(5);
    assert Pow128(9) == 128 * 128 * Pow128(7);
  }

  /** An int64 needs at most ten bytes, and a negative one needs exactly ten. */
  lemma {:induction false} Int64VarintLength(v: Int64)
    ensures |Varint(ToUnsigned(v))| <= 10
    ensures |Varint(ToUnsigned(v))| == 10 <==> v < 0
  {
    var n := ToUnsigned(v);
    Pow128Values();
    VarintLengthBound(n, 10);
    VarintIsMinimal(n);
    if n < TWO_63 { VarintLengthBound(n, 9); }
    if |Varint(n)| <= 9 { PowMonotone(|Varint(n)|, 9); }
  }

  lemma {:induction false} PowMonotone(j: nat, k: nat)
    requires j <= k
    ensures Pow128(j) <= Pow128(k)
  {
    if j < k { PowMonotone(j, k - 1); }
  }

  lemma SizeVarintLength(n: nat)
    requires n <= INT_MAX
    ensures |Varint(n)| <= 5
  {
    Pow128Values();
    VarintLengthBound(n, 5);
  }

  // ----- records --------------------------------------------------------------------------

  datatype Value =
    | VarintValue(n: nat)       // wire type 0
    | Fixed64(bytes: Bytes)     // wire type 1
    | Payload(bytes: Bytes)     // wire type 2
    | Fixed32(bytes: Bytes)     // wire type 5

  datatype Field = Field(number: nat, value: Value)

  /** One record: a tag of at most 32 bits and its payload. Groups and unknown wire types are
      malformed here. */
  function ReadField(s: Bytes): (r: Option<(Field, Bytes)>)
    ensures r.Some? ==> |r.value.1| < |s|
  {
    match ReadVarint(s, 5)
    case None => None
    case Some((tag, rest)) =>
      if tag >= TWO_32 || tag / 8 == 0 then None
      else match ReadValue(tag % 8, rest)
        case None => None
        case Some((v, rest')) => Some((Field(tag / 8, v), rest'))
  }

  function ReadValue(wireType: nat, s: Bytes): (r: Option<(Value, Bytes)>)
    ensures r.Some? ==> |r.value.1| <= |s|
  {
    match wireType
    case 0 =>
      (match ReadVarint(s, 10)
       case None => None
       case Some((n, rest)) => Some((VarintValue(n % TWO_64), rest)))
    case 1 => if |s| < 8 then None else Some((Fixed64(s[..8]), s[8..]))
    case 2 =>
      (match ReadVarint(s, 5)
       case None => None
       case Some((n, rest)) =>
         if n > INT_MAX || n > |rest| then None else Some((Payload(rest[..n]), rest[n..])))
    case 5 => if |s| < 4 then None else Some((Fixed32(s[..4]), s[4..]))
    case _ => None
  }

  function ParseFields(s: Bytes): Option<seq<Field>>
    decreases |s|
  {
    if s == [] then Some([])
    else match ReadField(s)
      case None => None
      case Some((f, rest)) => Prepend(f, ParseFields(rest))
  }

  function Prepend(f: Field, fs: Option<seq<Field>>): Option<seq<Field>> {
    if fs.None? then None else Some([f] + fs.value)
  }

  lemma ReadValuePrefix(wireType: nat, s: Bytes, t: Bytes)
    requires ReadValue(wireType, s).Some?
    ensures ReadValue(wireType, s + t) == Some((ReadValue(wireType, s).value.0, ReadValue(wireType, s).value.1 + t))
  {
    match wireType
    case 0 => ReadVarintPrefix(s, t, 10);
    case 1 => assert (s + t)[..8] == s[..8]; assert (s + t)[8..] == s[8..] + t;
    case 2 =>
      ReadVarintPrefix(s, t, 5);
      var (n, rest) := ReadVarint(s, 5).value;
      assert (rest + t)[..n] == rest[..n];
      assert (rest + t)[n..] == rest[n..] + t;
    case 5 => assert (s + t)[..4] == s[..4]; assert (s + t)[4..] == s[4..] + t;
    case _ =>
  }

  lemma ReadFieldPrefix(s: Bytes, t: Bytes)
    requires ReadField(s).Some?
    ensures ReadField(s + t) == Some((ReadField(s).value.0, ReadField(s).value.1 + t))
  {
    ReadVarintPrefix(s, t, 5);
    var (tag, rest) := ReadVarint(s, 5).value;
    ReadValuePrefix(tag % 8, rest, t);
  }

  ghost function Join(x: Option<seq<Field>>, y: Option<seq<Field>>): Option<seq<Field>> {
    if x.Some? && y.Some? then Some(x.value + y.value) else None
  }

  lemma JoinPrepend(f: Field, x: Option<seq<Field>>, y: Option<seq<Field>>)
    ensures Join(Prepend(f, x), y) == Prepend(f, Join(x, y))
  {
    if x.Some? && y.Some? { assert ([f] + x.value) + y.value == [f] + (x.value + y.value); }
  }

  /** Concatenating wire data concatenates its records, for any well-formed first part. */
  lemma {:induction false} ParseConcat(s: Bytes, t: Bytes)
    requires ParseFields(s).Some?
    ensures ParseFields(s + t) == Join(ParseFields(s), ParseFields(t))
    decreases |s|
  {
    if s == [] {
      assert s + t == t;
      if ParseFields(t).Some? { assert [] + ParseFields(t).value == ParseFields(t).value; }
    } else {
      var (f, rest) := ReadField(s).value;
      ReadFieldPrefix(s, t);
      ParseConcat(rest, t);
      JoinPrepend(f, ParseFields(rest), ParseFields(t));
    }
  }

  lemma ReadTag(tag: Byte, t: Bytes)
    requires tag < 128
    ensures ReadVarint([tag] + t, 5) == Some((tag, t))
  {
    assert ([tag] + t)[1..] == t;
  }

  lemma TagParts(number: nat, wireType: nat)
    requires wireType < 8
    ensures (8 * number + wireType) / 8 == number && (8 * number + wireType) % 8 == wireType
  {
  }

  lemma ReadRecord(number: nat, wireType: nat, t: Bytes, v: Value)
    requires 1 <= number < 16 && wireType < 8
    requires ReadValue(wireType, t) == Some((v, []))
    ensures ReadField([8 * number + wireType] + t) == Some((Field(number, v), []))
  {
    TagParts(number, wireType);
    ReadTag(8 * number + wireType, t);
  }

  lemma ParseOne(s: Bytes, f: Field)
    requires s != [] && ReadField(s) == Some((f, []))
    ensures ParseFields(s) == Some([f])
  {
    assert ParseFields([]) == Some([]);
    assert [f] + [] == [f];
  }

  lemma ParseRecord(number: nat, wireType: nat, t: Bytes, v: Value)
    requires 1 <= number < 16 && wireType < 8
    requires ReadValue(wireType, t) == Some((v, []))
    ensures ParseFields([8 * number + wireType] + t) == Some([Field(number, v)])
  {
    ReadRecord(number, wireType, t, v);
    ParseOne([8 * number + wireType] + t, Field(number, v));
  }

  /** Eight and four bytes follow a tag of wire type 1 and 5. */
  lemma ParseFixed(number: nat, b: Bytes)
    requires 1 <= number < 16
    ensures |b| == 8 ==> ParseFields([8 * number + 1] + b) == Some([Field(number, Fixed64(b))])
    ensures |b| == 4 ==> ParseFields([8 * number + 5] + b) == Some([Field(number, Fixed32(b))])
  {
    if |b| == 8 {
      assert b[..8] == b && b[8..] == [];
      ParseRecord(number, 1, b, Fixed64(b));
    }
    if |b| == 4 {
      assert b[..4] == b && b[4..] == [];
      ParseRecord(number, 5, b, Fixed32(b));
    }
  }

  lemma ReadTagged(number: nat, wireType: nat, t: Bytes)
    requires number < 16 && wireType < 8
    ensures ReadField([8 * number + wireType] + t) ==
            if number == 0 || ReadValue(wireType, t).None? then None
            else Some((Field(number, ReadValue(wireType, t).value.0), ReadValue(wireType, t).value.1))
  {
    TagParts(number, wireType);
    ReadTag(8 * number + wireType, t);
  }

  lemma Rejected(number: nat, wireType: nat, t: Bytes)
    requires number < 16 && wireType < 8 && (number == 0 || ReadValue(wireType, t).None?)
    ensures ParseFields([8 * number + wireType] + t) == None
  {
    ReadTagged(number, wireType, t);
  }

  /** Field number 0 and the unused wire types are rejected, and so is a fixed-size payload that is
      cut off. */
  lemma MalformedTag(number: nat, wireType: nat, t: Bytes)
    requires number < 16 && wireType < 8
    ensures number == 0 || wireType == 6 || wireType == 7 ==> ParseFields([8 * number + wireType] + t) == None
    ensures wireType == 1 && |t| < 8 ==> ParseFields([8 * number + wireType] + t) == None
    ensures wireType == 5 && |t| < 4 ==> ParseFields([8 * number + wireType] + t) == None
  {
    if number == 0 || wireType == 6 || wireType == 7 || (wireType == 1 && |t| < 8) || (wireType == 5 && |t| < 4) {
      Rejected(number, wireType, t);
    }
  }

  /** So is a varint that does not end within ten bytes, and a length not within five. */
  lemma {:induction false} MalformedVarint(number: nat, wireType: nat, t: Bytes)
    requires number < 16 && (wireType == 0 || wireType == 2)
    requires forall i | 0 <= i < |t| && i < (if wireType == 0 then 10 else 5) :: t[i] >= 128
    ensures ParseFields([8 * number + wireType] + t) == None
  {
    ReadFails(t, if wireType == 0 then 10 else 5);
    Rejected(number, wireType, t);
  }

  /** So is a payload shorter than its length, and one longer than INT_MAX. */
  lemma {:induction false} MalformedPayload(number: nat, n: nat, t: Bytes)
    requires number < 16 && (|t| < n || n > 0x7FFF_FFFF)
    ensures ParseFields([8 * number + 2] + (Varint(n) + t)) == None
  {
    if |Varint(n)| <= 5 { VarintRoundTrip(n, 5, t); } else { LongVarintFails(n, t); }
    Rejected(number, 2, Varint(n) + t);
  }

  lemma {:induction false} LongVarintFails(n: nat, t: Bytes)
    requires |Varint(n)| > 5
    ensures ReadVarint(Varint(n) + t, 5) == None
  {
    forall i: nat | i < 5 ensures (Varint(n) + t)[i] >= 128 { VarintGroups(n, i); }
    ReadFails(Varint(n) + t, 5);
  }

  lemma ReadPayload(b: Bytes)
    requires |b| <= INT_MAX
    ensures ReadValue(2, Varint(|b|) + b) == Some((Payload(b), []))
  {
    SizeVarintLength(|b|);
    VarintRoundTrip(|b|, 5, b);
    assert b[..|b|] == b && b[|b|..] == [];
  }

  lemma ReadUnsigned(n: nat)
    requires n < TWO_64 && |Varint(n)| <= 10
    ensures ReadValue(0, Varint(n)) == Some((VarintValue(n), []))
  {
    VarintRoundTrip(n, 10, []);
    assert Varint(n) + [] == Varint(n);
  }

  lemma ReadInt64(v: Int64)
    ensures ReadValue(0, Varint(ToUnsigned(v))) == Some((VarintValue(ToUnsigned(v)), []))
  {
    Int64VarintLength(v);
    ReadUnsigned(ToUnsigned(v));
  }
}
