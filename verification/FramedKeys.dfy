/** Cache keys: each part is framed as its decimal length, a colon, and its bytes. */
module FramedKeys {
  import opened Wrappers

  const COLON: byte := 58
  const SLASH: byte := 47
  const ZERO: byte := 48

  function Digit(d: nat): byte
    requires d < 10
  {
    ZERO + d as byte
  }

  function Decimal(n: nat): Bytes {
    if n < 10 then [Digit(n)] else Decimal(n / 10) + [Digit(n % 10)]
  }

  function Frame(part: Bytes): Bytes { Decimal(|part|) + [COLON] + part }

  function FramedCacheKey(parts: seq<Bytes>): Bytes {
    if parts == [] then [] else FramedCacheKey(parts[..|parts| - 1]) + Frame(parts[|parts| - 1])
  }

  method BuildFramedCacheKey(parts: seq<Bytes>) returns (key: Bytes)
    ensures key == FramedCacheKey(parts)
  {
    key := [];
    for i := 0 to |parts|
      invariant key == FramedCacheKey(parts[..i])
    {
      assert parts[..i + 1][..i] == parts[..i];
      key := key + Frame(parts[i]);
    }
    assert parts[..|parts|] == parts;
  }

  // ----- reading it back ------------------------------------------------------------------------

  predicate IsDigit(b: byte) { ZERO <= b <= ZERO + 9 }

  function DigitValue(b: byte): nat
    requires IsDigit(b)
  {
    b as int - 48
  }

  datatype Part = Part(bytes: Bytes, rest: Bytes)

  /** A number up to its colon, and what follows. */
  datatype Length = Length(value: nat, rest: Bytes)

  function ReadLength(s: Bytes, so_far: nat): (length: Option<Length>)
    ensures length.Some? ==> |length.value.rest| < |s|
  {
    if s == [] then None
    else if s[0] == COLON then Some(Length(so_far, s[1..]))
    else if IsDigit(s[0]) then ReadLength(s[1..], so_far * 10 + DigitValue(s[0]))
    else None
  }

  function ReadPart(s: Bytes): (part: Option<Part>)
    ensures part.Some? ==> |part.value.rest| < |s|
  {
    match ReadLength(s, 0)
    case None => None
    case Some(length) =>
      if length.value <= |length.rest| then Some(Part(length.rest[..length.value], length.rest[length.value..]))
      else None
  }

  function Decode(key: Bytes): Option<seq<Bytes>>
    decreases |key|
  {
    if key == [] then Some([])
    else match ReadPart(key)
      case None => None
      case Some(part) =>
        match Decode(part.rest)
        case None => None
        case Some(parts) => Some([part.bytes] + parts)
  }

  /** Reading digits one after the other. */
  function Value(digits: Bytes, so_far: nat): nat
    requires forall d :: d in digits ==> IsDigit(d)
  {
    if digits == [] then so_far else Value(digits[1..], so_far * 10 + DigitValue(digits[0]))
  }

  lemma {:induction false} ValueAppend(digits: Bytes, d: byte, so_far: nat)
    requires IsDigit(d) && forall x :: x in digits ==> IsDigit(x)
    ensures Value(digits + [d], so_far) == Value(digits, so_far) * 10 + DigitValue(d)
  {
    if digits != [] {
      assert (digits + [d])[1..] == digits[1..] + [d];
      ValueAppend(digits[1..], d, so_far * 10 + DigitValue(digits[0]));
    }
  }

  lemma {:induction false} DecimalValue(n: nat)
    ensures forall d :: d in Decimal(n) ==> IsDigit(d)
    ensures Value(Decimal(n), 0) == n
  {
    if n >= 10 {
      DecimalValue(n / 10);
      ValueAppend(Decimal(n / 10), Digit(n % 10), 0);
    }
  }

  lemma {:induction false} ReadDigits(digits: Bytes, rest: Bytes, so_far: nat)
    requires forall d :: d in digits ==> IsDigit(d)
    ensures ReadLength(digits + rest, so_far) == ReadLength(rest, Value(digits, so_far))
  {
    if digits == [] {
      assert digits + rest == rest;
    } else {
      assert (digits + rest)[1..] == digits[1..] + rest;
      ReadDigits(digits[1..], rest, so_far * 10 + DigitValue(digits[0]));
    }
  }

  /** A frame is read back whatever follows it, and whatever the part contains. */
  lemma {:induction false} ReadFrame(part: Bytes, rest: Bytes)
    ensures ReadPart(Frame(part) + rest) == Some(Part(part, rest))
  {
    var tail := [COLON] + part + rest;
    DecimalValue(|part|);
    assert Frame(part) + rest == Decimal(|part|) + tail;
    ReadDigits(Decimal(|part|), tail, 0);
    assert tail[1..] == part + rest;
  }

  lemma {:induction false} KeyCons(part: Bytes, parts: seq<Bytes>)
    ensures FramedCacheKey([part] + parts) == Frame(part) + FramedCacheKey(parts)
  {
    var all := [part] + parts;
    if parts == [] {
      assert all[..|all| - 1] == [];
    } else {
      assert all[..|all| - 1] == [part] + parts[..|parts| - 1];
      KeyCons(part, parts[..|parts| - 1]);
    }
  }

  /** The decoder undoes the framing. */
  lemma {:induction false} DecodeUndoes(parts: seq<Bytes>)
    ensures Decode(FramedCacheKey(parts)) == Some(parts)
  {
    if parts != [] {
      assert parts == [parts[0]] + parts[1..];
      KeyCons(parts[0], parts[1..]);
      ReadFrame(parts[0], FramedCacheKey(parts[1..]));
      DecodeUndoes(parts[1..]);
    }
  }

  /** Different lists of parts have different keys, digits and colons in them included. */
  lemma {:induction false} KeysInjective(a: seq<Bytes>, b: seq<Bytes>)
    ensures FramedCacheKey(a) == FramedCacheKey(b) <==> a == b
  {
    DecodeUndoes(a);
    DecodeUndoes(b);
  }

  // ----- the keys built from it -------------------------------------------------------------------

  function MessageParts(connection: Bytes, folder: Bytes, uidValidity: nat, uid: nat): seq<Bytes> {
    [connection, folder, Decimal(uidValidity), Decimal(uid)]
  }

  function MessageCacheKey(connection: Bytes, folder: Bytes, uidValidity: nat, uid: nat): Bytes {
    FramedCacheKey(MessageParts(connection, folder, uidValidity, uid))
  }

  function AttachmentCacheKey(connection: Bytes, folder: Bytes, uidValidity: nat, uid: nat, attachment: Bytes): Bytes {
    MessageCacheKey(connection, folder, uidValidity, uid) + [SLASH] + attachment
  }

  /** Keys of as many parts stay apart under anything appended to them. */
  lemma {:induction false} PrefixesInjective(a: seq<Bytes>, b: seq<Bytes>, x: Bytes, y: Bytes)
    requires |a| == |b| && FramedCacheKey(a) + x == FramedCacheKey(b) + y
    ensures a == b && x == y
  {
    if a == [] {
      assert x == FramedCacheKey(a) + x && y == FramedCacheKey(b) + y;
    } else {
      assert a == [a[0]] + a[1..] && b == [b[0]] + b[1..];
      KeyCons(a[0], a[1..]);
      KeyCons(b[0], b[1..]);
      assert FramedCacheKey(a) + x == Frame(a[0]) + (FramedCacheKey(a[1..]) + x);
      assert FramedCacheKey(b) + y == Frame(b[0]) + (FramedCacheKey(b[1..]) + y);
      ReadFrame(a[0], FramedCacheKey(a[1..]) + x);
      ReadFrame(b[0], FramedCacheKey(b[1..]) + y);
      PrefixesInjective(a[1..], b[1..], x, y);
    }
  }

  /** Attachments of different messages, generations or mailboxes never share a cache entry. */
  lemma {:induction false} AttachmentKeysInjective(c1: Bytes, f1: Bytes, v1: nat, u1: nat, a1: Bytes, c2: Bytes,
                                                   f2: Bytes, v2: nat, u2: nat, a2: Bytes)
    requires AttachmentCacheKey(c1, f1, v1, u1, a1) == AttachmentCacheKey(c2, f2, v2, u2, a2)
    ensures c1 == c2 && f1 == f2 && v1 == v2 && u1 == u2 && a1 == a2
  {
    var first, second := MessageParts(c1, f1, v1, u1), MessageParts(c2, f2, v2, u2);
    assert AttachmentCacheKey(c1, f1, v1, u1, a1) == FramedCacheKey(first) + ([SLASH] + a1);
    assert AttachmentCacheKey(c2, f2, v2, u2, a2) == FramedCacheKey(second) + ([SLASH] + a2);
    PrefixesInjective(first, second, [SLASH] + a1, [SLASH] + a2);
    assert first[0] == second[0] && first[1] == second[1] && first[2] == second[2] && first[3] == second[3];
    assert ([SLASH] + a1)[1..] == a1 && ([SLASH] + a2)[1..] == a2;
    DecimalValue(v1);
    DecimalValue(v2);
    DecimalValue(u1);
    DecimalValue(u2);
  }
}
