/** The TZif file of a VTIMEZONE (section 3 of RFC 8536): a version-1 block with 32-bit times,
    a version-2 block with 64-bit times, and an empty footer. */
module TzifFormat {
  import opened Wrappers
  import opened TimezoneData

  const HEADER: nat := 44

  // ----- numbers --------------------------------------------------------------------------------

  function Power(k: nat): (p: nat)
    ensures p > 0
  {
    if k == 0 then 1 else 256 * Power(k - 1)
  }

  function Unsigned(n: nat, k: nat): (s: Bytes)
    ensures |s| == k
  {
    if k == 0 then [] else Unsigned(n / 256, k - 1) + [(n % 256) as byte]
  }

  /** Big-endian two's complement in k octets; a wider value is truncated. */
  function Signed(v: int, k: nat): (s: Bytes)
    ensures |s| == k
  {
    Unsigned(v % Power(k), k)
  }

  function ReadUnsigned(s: Bytes): nat {
    if s == [] then 0 else ReadUnsigned(s[..|s| - 1]) * 256 + s[|s| - 1] as nat
  }

  function ReadSigned(s: Bytes): int {
    if 2 * ReadUnsigned(s) >= Power(|s|) then ReadUnsigned(s) - Power(|s|) else ReadUnsigned(s)
  }

  predicate Fits(v: int, k: nat) { -(Power(k) as int) <= 2 * v < Power(k) }

  lemma {:induction false} UnsignedReadBack(n: nat, k: nat)
    requires n < Power(k)
    ensures ReadUnsigned(Unsigned(n, k)) == n
  {
    if k > 0 {
      UnsignedReadBack(n / 256, k - 1);
      assert Unsigned(n, k)[..k - 1] == Unsigned(n / 256, k - 1);
    }
  }

  lemma {:induction false} WrapOnce(v: int, p: nat)
    requires -(p as int) <= v < p
    ensures p > 0 && v % p == if v < 0 then v + p else v
  {
  }

  lemma {:induction false} SignedReadBack(v: int, k: nat)
    requires Fits(v, k)
    ensures ReadSigned(Signed(v, k)) == v
  {
    WrapOnce(v, Power(k));
    UnsignedReadBack(v % Power(k), k);
  }

  // ----- writing ----------------------------------------------------------------------------------

  /** "TZif2" and fifteen unused octets. */
  const MAGIC: Bytes := [84, 90, 105, 102, 50, 0, 0, 0, 0, 0, 0, 0, 0, 0, 0, 0, 0, 0, 0, 0]

  function Header(times: nat, types: nat, chars: nat): (s: Bytes)
    ensures |s| == HEADER
  {
    MAGIC + Signed(0, 4) + Signed(0, 4) + Signed(0, 4) + Signed(times, 4) + Signed(types, 4) + Signed(chars, 4)
  }

  function Times(transitions: seq<Transition>, k: nat): Bytes {
    if transitions == [] then [] else Signed(transitions[0].at, k) + Times(transitions[1..], k)
  }

  function Abbreviations(types: seq<ZoneType>): Bytes {
    if types == [] then [] else types[0].name + [0] + Abbreviations(types[1..])
  }

  function TypeRow(kind: ZoneType, abbreviation: byte): (s: Bytes)
    ensures |s| == 6
  {
    Signed(kind.offset, 4) + [if kind.daylight then 1 else 0] + [abbreviation]
  }

  function TypeRows(types: seq<ZoneType>, abbreviations: Bytes): Bytes
    requires |types| == |abbreviations|
  {
    if types == [] then [] else TypeRow(types[0], abbreviations[0]) + TypeRows(types[1..], abbreviations[1..])
  }

  function Body(transitions: seq<Transition>, k: nat, indexes: Bytes, types: seq<ZoneType>, abbreviations: Bytes): Bytes
    requires |types| == |abbreviations|
  {
    Times(transitions, k) + indexes + TypeRows(types, abbreviations) + Abbreviations(types)
  }

  function Block(transitions: seq<Transition>, k: nat, indexes: Bytes, types: seq<ZoneType>,
                 abbreviations: Bytes): Bytes
    requires |types| == |abbreviations|
  {
    Header(|transitions|, |types|, |Abbreviations(types)|) + Body(transitions, k, indexes, types, abbreviations)
  }

  /** The position of each abbreviation in the buffer. */
  ghost predicate Positions(types: seq<ZoneType>, abbreviations: Bytes) {
    |abbreviations| == |types|
    && forall i :: 0 <= i < |types| ==> abbreviations[i] as int == |Abbreviations(types[..i])|
  }

  predicate FitsInt32(at: int) { -0x8000_0000 <= at <= 0x7FFF_FFFF }

  function VersionOne(transitions: seq<Transition>): seq<Transition> {
    if transitions == [] then []
    else (if FitsInt32(transitions[0].at) then [transitions[0]] else []) + VersionOne(transitions[1..])
  }

  function VersionOneIndexes(transitions: seq<Transition>, indexes: Bytes): Bytes
    requires |transitions| == |indexes|
  {
    if transitions == [] then []
    else (if FitsInt32(transitions[0].at) then [indexes[0]] else []) + VersionOneIndexes(transitions[1..], indexes[1..])
  }

  const FOOTER: Bytes := [10, 10]

  function File(transitions: seq<Transition>, indexes: Bytes, types: seq<ZoneType>, abbreviations: Bytes): Bytes
    requires |types| == |abbreviations| && |transitions| == |indexes|
  {
    Block(VersionOne(transitions), 4, VersionOneIndexes(transitions, indexes), types, abbreviations)
    + Block(transitions, 8, indexes, types, abbreviations) + FOOTER
  }

  // ----- reading ------------------------------------------------------------------------------------

  datatype Decoded = Decoded(times: seq<int>, indexes: Bytes, types: seq<ZoneType>)

  datatype ReadBlockResult = ReadBlockResult(decoded: Decoded, rest: Bytes)

  function ReadTimes(s: Bytes, k: nat): seq<int>
    requires k > 0
  {
    if |s| < k then [] else [ReadSigned(s[..k])] + ReadTimes(s[k..], k)
  }

  function UntilNul(s: Bytes): Bytes {
    if s == [] || s[0] == 0 then [] else [s[0]] + UntilNul(s[1..])
  }

  function ReadTypes(s: Bytes, chars: Bytes): seq<ZoneType> {
    if |s| < 6 then []
    else
      var from := if s[5] as int <= |chars| then s[5] as int else |chars|;
      [ZoneType(ReadSigned(s[..4]), s[4] == 1, UntilNul(chars[from..]))] + ReadTypes(s[6..], chars)
  }

  datatype Counts = Counts(times: int, types: int, chars: int)

  /** The header. Leap seconds and indicators, which this writer never emits, are refused. */
  function ReadHeader(s: Bytes): (counts: Option<Counts>)
    ensures counts.Some? ==>
              |s| >= 44 && counts.value.times >= 0 && counts.value.types >= 0 && counts.value.chars >= 0
  {
    if |s| < 44 || s[..20] != [84, 90, 105, 102, 50, 0, 0, 0, 0, 0, 0, 0, 0, 0, 0, 0, 0, 0, 0, 0] then None
    else if s[20..32] != [0, 0, 0, 0, 0, 0, 0, 0, 0, 0, 0, 0] then None
    else
      var counts := Counts(ReadSigned(s[32..36]), ReadSigned(s[36..40]), ReadSigned(s[40..44]));
      if counts.times < 0 || counts.types < 0 || counts.chars < 0 then None else Some(counts)
  }

  datatype Piece = Piece(head: Bytes, tail: Bytes)

  function Cut(s: Bytes, n: nat): Option<Piece> {
    if |s| < n then None else Some(Piece(s[..n], s[n..]))
  }

  /** The data block after a header: times, indexes, types and abbreviations in turn. */
  function ReadBody(s: Bytes, counts: Counts, k: nat): Option<ReadBlockResult>
    requires k > 0 && counts.times >= 0 && counts.types >= 0 && counts.chars >= 0
  {
    var times := Cut(s, counts.times * k);
    if times.None? then None
    else
      var indexes := Cut(times.value.tail, counts.times);
      if indexes.None? then None
      else
        var rows := Cut(indexes.value.tail, counts.types * 6);
        if rows.None? then None
        else
          var chars := Cut(rows.value.tail, counts.chars);
          if chars.None? then None
          else Some(ReadBlockResult(Decoded(ReadTimes(times.value.head, k), indexes.value.head,
                                            ReadTypes(rows.value.head, chars.value.head)),
                                    chars.value.tail))
  }

  function ReadBlock(s: Bytes, k: nat): Option<ReadBlockResult>
    requires k > 0
  {
    match ReadHeader(s)
    case None => None
    case Some(counts) => ReadBody(s[44..], counts, k)
  }

  /** A version-2 reader skips the first block. */
  function ReadFile(s: Bytes): Option<Decoded> {
    match ReadBlock(s, 4)
    case None => None
    case Some(first) =>
      match ReadBlock(first.rest, 8)
      case None => None
      case Some(second) => if second.rest == [10, 10] then Some(second.decoded) else None
  }

  // ----- round trip -----------------------------------------------------------------------------

  function AtOf(transitions: seq<Transition>): (times: seq<int>)
    ensures |times| == |transitions|
  {
    if transitions == [] then [] else [transitions[0].at] + AtOf(transitions[1..])
  }

  lemma {:induction false} MulNext(n: nat, k: nat)
    ensures (n + 1) * k == k + n * k
  {
  }

  lemma {:induction false} TimesLength(transitions: seq<Transition>, k: nat)
    ensures |Times(transitions, k)| == |transitions| * k
  {
    if transitions != [] {
      TimesLength(transitions[1..], k);
      MulNext(|transitions| - 1, k);
    }
  }

  lemma {:induction false} TimesReadBack(transitions: seq<Transition>, k: nat)
    requires k > 0 && forall t :: t in transitions ==> Fits(t.at, k)
    ensures ReadTimes(Times(transitions, k), k) == AtOf(transitions)
  {
    if transitions != [] {
      var first, rest := Signed(transitions[0].at, k), Times(transitions[1..], k);
      assert transitions[0] in transitions;
      TimesReadBack(transitions[1..], k);
      SignedReadBack(transitions[0].at, k);
      assert (first + rest)[..k] == first && (first + rest)[k..] == rest;
    }
  }

  lemma {:induction false} UntilNulStops(name: Bytes, rest: Bytes)
    requires 0 !in name
    ensures UntilNul(name + [0] + rest) == name
  {
    if name != [] {
      assert (name + [0] + rest)[1..] == name[1..] + [0] + rest;
      UntilNulStops(name[1..], rest);
    }
  }

  lemma {:induction false} AbbreviationsSplit(types: seq<ZoneType>, i: nat)
    requires i <= |types|
    ensures Abbreviations(types) == Abbreviations(types[..i]) + Abbreviations(types[i..])
  {
    if i > 0 {
      AbbreviationsSplit(types[1..], i - 1);
      assert types[..i][1..] == types[1..][..i - 1] && types[1..][i - 1..] == types[i..];
    } else {
      assert types[..0] == [] && types[0..] == types;
    }
  }

  /** The name of a type is what its position points at. */
  lemma {:induction false} NameAt(types: seq<ZoneType>, i: nat)
    requires i < |types| && 0 !in types[i].name
    ensures |Abbreviations(types[..i])| <= |Abbreviations(types)|
    ensures UntilNul(Abbreviations(types)[|Abbreviations(types[..i])|..]) == types[i].name
  {
    AbbreviationsSplit(types, i);
    UntilNulStops(types[i].name, Abbreviations(types[i + 1..]));
    assert types[i..][0] == types[i] && types[i..][1..] == types[i + 1..];
    assert Abbreviations(types)[|Abbreviations(types[..i])|..] == Abbreviations(types[i..]);
  }

  ghost predicate Writable(types: seq<ZoneType>) {
    forall t :: t in types ==> Fits(t.offset, 4) && 0 !in t.name
  }

  lemma {:induction false} RowReadBack(kind: ZoneType, abbreviation: byte)
    requires Fits(kind.offset, 4)
    ensures var s := TypeRow(kind, abbreviation);
            ReadSigned(s[..4]) == kind.offset && (s[4] == 1 <==> kind.daylight) && s[5] == abbreviation
  {
    SignedReadBack(kind.offset, 4);
    assert TypeRow(kind, abbreviation)[..4] == Signed(kind.offset, 4);
  }

  /** The types from position n on are read back. */
  lemma {:induction false} TypesReadBack(types: seq<ZoneType>, abbreviations: Bytes, n: nat)
    requires n <= |types| && Positions(types, abbreviations) && Writable(types)
    ensures |TypeRows(types[n..], abbreviations[n..])| == (|types| - n) * 6
    ensures ReadTypes(TypeRows(types[n..], abbreviations[n..]), Abbreviations(types)) == types[n..]
    decreases |types| - n
  {
    if n < |types| {
      var s := TypeRows(types[n..], abbreviations[n..]);
      TypesReadBack(types, abbreviations, n + 1);
      RowReadBack(types[n], abbreviations[n]);
      NameAt(types, n);
      assert types[n..][1..] == types[n + 1..] && abbreviations[n..][1..] == abbreviations[n + 1..];
      assert s == TypeRow(types[n], abbreviations[n]) + TypeRows(types[n + 1..], abbreviations[n + 1..]);
      assert s[6..] == TypeRows(types[n + 1..], abbreviations[n + 1..])
             && s[..4] == TypeRow(types[n], abbreviations[n])[..4];
      assert types[n..] == [types[n]] + types[n + 1..];
    }
  }

  lemma {:induction false} ZeroOctets()
    ensures Signed(0, 4) == [0, 0, 0, 0]
  {
    assert Unsigned(0, 1) == [0] && Unsigned(0, 2) == [0, 0] && Unsigned(0, 3) == [0, 0, 0];
  }

  lemma {:induction false} HeaderReadBack(times: nat, types: nat, chars: nat)
    requires Fits(times, 4) && Fits(types, 4) && Fits(chars, 4)
    ensures var s := Header(times, types, chars);
            && s[..20] == MAGIC && s[20..32] == [0, 0, 0, 0, 0, 0, 0, 0, 0, 0, 0, 0]
            && ReadSigned(s[32..36]) == times && ReadSigned(s[36..40]) == types && ReadSigned(s[40..44]) == chars
  {
    var s := Header(times, types, chars);
    SignedReadBack(times, 4);
    SignedReadBack(types, 4);
    SignedReadBack(chars, 4);
    assert Signed(0, 4) == [0, 0, 0, 0] by {
      ZeroOctets();
    }
    assert s[32..36] == Signed(times, 4) && s[36..40] == Signed(types, 4) && s[40..44] == Signed(chars, 4);
  }

  lemma {:induction false} Prefixed(a: Bytes, rest: Bytes, i: nat, j: nat)
    requires i <= j <= |a|
    ensures (a + rest)[i..j] == a[i..j]
  {
  }

  lemma {:induction false} HeaderRead(times: nat, types: nat, chars: nat, rest: Bytes)
    requires Fits(times, 4) && Fits(types, 4) && Fits(chars, 4)
    ensures ReadHeader(Header(times, types, chars) + rest) == Some(Counts(times, types, chars))
  {
    var header := Header(times, types, chars);
    HeaderReadBack(times, types, chars);
    Prefixed(header, rest, 0, 20);
    Prefixed(header, rest, 20, 32);
    Prefixed(header, rest, 32, 36);
    Prefixed(header, rest, 36, 40);
    Prefixed(header, rest, 40, 44);
  }

  /** The parts of a data block are where the counts say. */
  lemma {:induction false} BodyParts(times: Bytes, indexes: Bytes, rows: Bytes, chars: Bytes, rest: Bytes,
                                     counts: Counts, k: nat)
    requires k > 0 && counts.times >= 0 && counts.types >= 0
    requires |times| == counts.times * k && |indexes| == counts.times && |rows| == counts.types * 6
    requires |chars| == counts.chars
    ensures ReadBody(times + indexes + rows + chars + rest, counts, k)
            == Some(ReadBlockResult(Decoded(ReadTimes(times, k), indexes, ReadTypes(rows, chars)), rest))
  {
    Assoc(times + indexes + rows, chars, rest);
    Assoc(times + indexes, rows, chars + rest);
    Assoc(times, indexes, rows + (chars + rest));
    CutJoined(times, indexes + (rows + (chars + rest)));
    CutJoined(indexes, rows + (chars + rest));
    CutJoined(rows, chars + rest);
    CutJoined(chars, rest);
  }

  lemma {:induction false} CutJoined(head: Bytes, tail: Bytes)
    ensures Cut(head + tail, |head|) == Some(Piece(head, tail))
  {
  }

  lemma {:induction false} BodyRead(transitions: seq<Transition>, k: nat, indexes: Bytes, types: seq<ZoneType>,
                                    abbreviations: Bytes, rest: Bytes)
    requires k > 0 && |indexes| == |transitions| && Positions(types, abbreviations) && Writable(types)
    requires forall t :: t in transitions ==> Fits(t.at, k)
    ensures ReadBody(Body(transitions, k, indexes, types, abbreviations) + rest,
                     Counts(|transitions|, |types|, |Abbreviations(types)|), k)
            == Some(ReadBlockResult(Decoded(AtOf(transitions), indexes, types), rest))
  {
    TimesLength(transitions, k);
    TimesReadBack(transitions, k);
    TypesReadBack(types, abbreviations, 0);
    assert types[0..] == types && abbreviations[0..] == abbreviations;
    BodyParts(Times(transitions, k), indexes, TypeRows(types, abbreviations), Abbreviations(types), rest,
              Counts(|transitions|, |types|, |Abbreviations(types)|), k);
  }

  lemma {:induction false} HeaderThenBody(header: Bytes, body: Bytes, rest: Bytes)
    requires |header| == HEADER
    ensures header + body + rest == header + (body + rest) && (header + (body + rest))[HEADER..] == body + rest
  {
  }

  /** A block is read back, whatever follows it. */
  lemma {:induction false} BlockReadBack(transitions: seq<Transition>, k: nat, indexes: Bytes, types: seq<ZoneType>,
                                         abbreviations: Bytes, rest: Bytes)
    requires k > 0 && |indexes| == |transitions| && Positions(types, abbreviations) && Writable(types)
    requires Fits(|transitions|, 4) && Fits(|types|, 4) && Fits(|Abbreviations(types)|, 4)
    requires forall t :: t in transitions ==> Fits(t.at, k)
    ensures ReadBlock(Block(transitions, k, indexes, types, abbreviations) + rest, k)
            == Some(ReadBlockResult(Decoded(AtOf(transitions), indexes, types), rest))
  {
    var header := Header(|transitions|, |types|, |Abbreviations(types)|);
    var body := Body(transitions, k, indexes, types, abbreviations);
    HeaderThenBody(header, body, rest);
    HeaderRead(|transitions|, |types|, |Abbreviations(types)|, body + rest);
    BodyRead(transitions, k, indexes, types, abbreviations, rest);
  }

  lemma {:induction false} VersionOneFacts(transitions: seq<Transition>, indexes: Bytes)
    requires |transitions| == |indexes|
    ensures |VersionOne(transitions)| == |VersionOneIndexes(transitions, indexes)| <= |transitions|
    ensures forall t :: t in VersionOne(transitions) <==> t in transitions && FitsInt32(t.at)
  {
    if transitions != [] {
      VersionOneFacts(transitions[1..], indexes[1..]);
    }
  }

  ghost predicate Records(times: seq<int>, indexes: Bytes, at: int, index: byte)
    requires |indexes| == |times|
  {
    exists i :: 0 <= i < |times| && times[i] == at && indexes[i] == index
  }

  lemma {:induction false} RecordsCons(first: int, firstIndex: byte, times: seq<int>, indexes: Bytes, at: int,
                                       index: byte)
    requires |indexes| == |times|
    ensures Records([first] + times, [firstIndex] + indexes, at, index)
            <==> (first == at && firstIndex == index) || Records(times, indexes, at, index)
  {
    var all, allIndexes := [first] + times, [firstIndex] + indexes;
    if Records(times, indexes, at, index) {
      var i :| 0 <= i < |times| && times[i] == at && indexes[i] == index;
      assert all[i + 1] == at && allIndexes[i + 1] == index;
    }
    if first == at && firstIndex == index {
      assert all[0] == at && allIndexes[0] == index;
    }
  }

  /** The version-1 block has the transitions that fit 32 bits, each with its own index. */
  lemma {:induction false} VersionOneRecords(transitions: seq<Transition>, indexes: Bytes, at: int, index: byte)
    requires |transitions| == |indexes|
    ensures |VersionOne(transitions)| == |VersionOneIndexes(transitions, indexes)|
    ensures Records(AtOf(VersionOne(transitions)), VersionOneIndexes(transitions, indexes), at, index)
            <==> -0x8000_0000 <= at <= 0x7FFF_FFFF && Records(AtOf(transitions), indexes, at, index)
  {
    if transitions != [] {
      var one, oneIndexes := VersionOne(transitions[1..]), VersionOneIndexes(transitions[1..], indexes[1..]);
      VersionOneRecords(transitions[1..], indexes[1..], at, index);
      RecordsCons(transitions[0].at, indexes[0], AtOf(transitions[1..]), indexes[1..], at, index);
      RecordsCons(transitions[0].at, indexes[0], AtOf(one), oneIndexes, at, index);
      assert indexes == [indexes[0]] + indexes[1..];
      assert AtOf(transitions) == [transitions[0].at] + AtOf(transitions[1..]);
      if FitsInt32(transitions[0].at) {
        assert AtOf(VersionOne(transitions)) == [transitions[0].at] + AtOf(one);
      } else {
        assert VersionOne(transitions) == one && VersionOneIndexes(transitions, indexes) == oneIndexes;
      }
    }
  }

  lemma {:induction false} VersionOneAscends(transitions: seq<Transition>, indexes: Bytes)
    requires StrictlyAscending(transitions) && |transitions| == |indexes|
    ensures StrictlyAscending(VersionOne(transitions))
  {
    if transitions != [] {
      VersionOneAscends(transitions[1..], indexes[1..]);
      VersionOneFacts(transitions[1..], indexes[1..]);
      if FitsInt32(transitions[0].at) { ConsStrict(transitions[0], VersionOne(transitions[1..])); }
    }
  }

  /** A reader of version 1 sees the times of 32 bits, in order, each with its own index. */
  ghost predicate Restricts(first: Decoded, whole: Decoded)
    requires |first.indexes| == |first.times| && |whole.indexes| == |whole.times|
  {
    && first.types == whole.types
    && (forall i, j :: 0 <= i < j < |first.times| ==> first.times[i] < first.times[j])
    && forall at, index ::
         Records(first.times, first.indexes, at, index)
         <==> -0x8000_0000 <= at <= 0x7FFF_FFFF && Records(whole.times, whole.indexes, at, index)
  }

  lemma {:induction false} AtOfEach(transitions: seq<Transition>, i: nat)
    requires i < |transitions|
    ensures AtOf(transitions)[i] == transitions[i].at
  {
    if i > 0 { AtOfEach(transitions[1..], i - 1); }
  }

  lemma {:induction false} VersionOneRestricts(transitions: seq<Transition>, indexes: Bytes, types: seq<ZoneType>)
    requires StrictlyAscending(transitions) && |transitions| == |indexes|
    ensures |VersionOne(transitions)| == |VersionOneIndexes(transitions, indexes)|
    ensures Restricts(Decoded(AtOf(VersionOne(transitions)), VersionOneIndexes(transitions, indexes), types),
                      Decoded(AtOf(transitions), indexes, types))
  {
    var one := VersionOne(transitions);
    VersionOneFacts(transitions, indexes);
    VersionOneAscends(transitions, indexes);
    forall i, j | 0 <= i < j < |AtOf(one)| ensures AtOf(one)[i] < AtOf(one)[j] {
      AtOfEach(one, i);
      AtOfEach(one, j);
    }
    forall at, index
      ensures Records(AtOf(one), VersionOneIndexes(transitions, indexes), at, index)
              <==> -0x8000_0000 <= at <= 0x7FFF_FFFF && Records(AtOf(transitions), indexes, at, index)
    {
      VersionOneRecords(transitions, indexes, at, index);
    }
  }

  /** The decoder reads the file back as the same transition times, type indexes and types; a
      version-1 reader sees those that fit 32 bits. */
  lemma {:induction false} FileReadBack(transitions: seq<Transition>, indexes: Bytes, types: seq<ZoneType>,
                                        abbreviations: Bytes)
    requires |indexes| == |transitions| && Positions(types, abbreviations) && Writable(types)
    requires Fits(|transitions|, 4) && Fits(|types|, 4) && Fits(|Abbreviations(types)|, 4)
    requires forall t :: t in transitions ==> Fits(t.at, 8)
    ensures ReadFile(File(transitions, indexes, types, abbreviations))
            == Some(Decoded(AtOf(transitions), indexes, types))
    ensures var first := ReadBlock(File(transitions, indexes, types, abbreviations), 4);
            first.Some?
              && first.value.decoded
                 == Decoded(AtOf(VersionOne(transitions)), VersionOneIndexes(transitions, indexes), types)
  {
    var one, oneIndexes := VersionOne(transitions), VersionOneIndexes(transitions, indexes);
    VersionOneFacts(transitions, indexes);
    Int32IsFourOctets();
    var second := Block(transitions, 8, indexes, types, abbreviations);
    BlockReadBack(one, 4, oneIndexes, types, abbreviations, second + FOOTER);
    BlockReadBack(transitions, 8, indexes, types, abbreviations, FOOTER);
    Assoc(Block(one, 4, oneIndexes, types, abbreviations), second, FOOTER);
  }

  lemma {:induction false} Int32IsFourOctets()
    ensures forall at :: FitsInt32(at) <==> Fits(at, 4)
  {
    assert Power(1) == 256 && Power(2) == 0x1_0000;
    assert Power(3) == 0x100_0000 && Power(4) == 0x1_0000_0000;
  }

  // ----- the writer's loops ---------------------------------------------------------------------

  lemma {:induction false} AbbreviationsAppend(types: seq<ZoneType>, kind: ZoneType)
    ensures Abbreviations(types + [kind]) == Abbreviations(types) + kind.name + [0]
  {
    AbbreviationsSplit(types + [kind], |types|);
    assert (types + [kind])[..|types|] == types && (types + [kind])[|types|..] == [kind];
    assert Abbreviations([kind]) == kind.name + [0];
  }

  /** Fills the abbreviation buffer. It fails exactly when some abbreviation would start past
      octet 255, where its position no longer fits. */
  method PlaceAbbreviations(types: seq<ZoneType>) returns (result: Result<Bytes, Failure>, positions: Bytes)
    ensures result.Err? <==> exists i :: 0 <= i < |types| && |Abbreviations(types[..i])| > 255
    ensures result.Err? ==> result.error == AbbreviationsTooLarge
    ensures result.Ok? ==> result.value == Abbreviations(types) && Positions(types, positions)
  {
    var abbreviations: Bytes := [];
    positions := [];
    for index := 0 to |types|
      invariant abbreviations == Abbreviations(types[..index]) && |positions| == index
      invariant forall i :: 0 <= i < index ==> positions[i] as int == |Abbreviations(types[..i])|
      invariant forall i :: 0 <= i < index ==> |Abbreviations(types[..i])| <= 255
    {
      if |abbreviations| > 255 {
        return Err(AbbreviationsTooLarge), [];
      }
      positions := positions + [|abbreviations| as byte];
      AbbreviationsAppend(types[..index], types[index]);
      assert types[..index + 1] == types[..index] + [types[index]];
      abbreviations := abbreviations + types[index].name + [0];
    }
    assert types[..|types|] == types;
    return Ok(abbreviations), positions;
  }

  method SelectVersionOne(transitions: seq<Transition>, indexes: Bytes)
    returns (one: seq<Transition>, oneIndexes: Bytes)
    requires |transitions| == |indexes|
    ensures one == VersionOne(transitions) && oneIndexes == VersionOneIndexes(transitions, indexes)
  {
    one, oneIndexes := [], [];
    for i := 0 to |transitions|
      invariant one + VersionOne(transitions[i..]) == VersionOne(transitions)
      invariant oneIndexes + VersionOneIndexes(transitions[i..], indexes[i..])
                == VersionOneIndexes(transitions, indexes)
    {
      assert transitions[i..][0] == transitions[i] && transitions[i..][1..] == transitions[i + 1..];
      assert indexes[i..][0] == indexes[i] && indexes[i..][1..] == indexes[i + 1..];
      if FitsInt32(transitions[i].at) {
        one := one + [transitions[i]];
        oneIndexes := oneIndexes + [indexes[i]];
      }
    }
  }

  method WriteTimes(transitions: seq<Transition>, k: nat) returns (buffer: Bytes)
    ensures buffer == Times(transitions, k)
  {
    buffer := [];
    for i := 0 to |transitions|
      invariant buffer + Times(transitions[i..], k) == Times(transitions, k)
    {
      assert transitions[i..][0] == transitions[i] && transitions[i..][1..] == transitions[i + 1..];
      Assoc(buffer, Signed(transitions[i].at, k), Times(transitions[i + 1..], k));
      buffer := buffer + Signed(transitions[i].at, k);
    }
    assert transitions[|transitions|..] == [];
  }

  method WriteTypes(types: seq<ZoneType>, positions: Bytes, abbreviations: Bytes) returns (buffer: Bytes)
    requires |types| == |positions|
    ensures buffer == TypeRows(types, positions) + abbreviations
  {
    buffer := [];
    for i := 0 to |types|
      invariant buffer + TypeRows(types[i..], positions[i..]) == TypeRows(types, positions)
    {
      assert types[i..][0] == types[i] && types[i..][1..] == types[i + 1..];
      assert positions[i..][0] == positions[i] && positions[i..][1..] == positions[i + 1..];
      Assoc(buffer, TypeRow(types[i], positions[i]), TypeRows(types[i + 1..], positions[i + 1..]));
      buffer := buffer + TypeRow(types[i], positions[i]);
    }
    assert types[|types|..] == [];
    buffer := buffer + abbreviations;
  }

  method BuildTzif(transitions: seq<Transition>, indexes: Bytes, types: seq<ZoneType>)
    returns (result: Result<Bytes, Failure>, ghost positions: Bytes)
    requires |transitions| == |indexes|
    ensures result.Err? <==> exists i :: 0 <= i < |types| && |Abbreviations(types[..i])| > 255
    ensures result.Err? ==> result.error == AbbreviationsTooLarge
    ensures result.Ok? ==> Positions(types, positions) && result.value == File(transitions, indexes, types, positions)
  {
    var placed, abbreviationIndexes := PlaceAbbreviations(types);
    if placed.Err? {
      return Err(placed.error), [];
    }
    var one, oneIndexes := SelectVersionOne(transitions, indexes);
    var first := WriteBlock(one, 4, oneIndexes, types, abbreviationIndexes, placed.value);
    var second := WriteBlock(transitions, 8, indexes, types, abbreviationIndexes, placed.value);
    return Ok(first + second + FOOTER), abbreviationIndexes;
  }

  method WriteBlock(transitions: seq<Transition>, k: nat, indexes: Bytes, types: seq<ZoneType>, positions: Bytes,
                    abbreviations: Bytes) returns (buffer: Bytes)
    requires |types| == |positions| && abbreviations == Abbreviations(types)
    ensures buffer == Block(transitions, k, indexes, types, positions)
  {
    var times := WriteTimes(transitions, k);
    var rows := WriteTypes(types, positions, abbreviations);
    Assoc(Times(transitions, k) + indexes, TypeRows(types, positions), abbreviations);
    buffer := Header(|transitions|, |types|, |abbreviations|) + (times + indexes + rows);
  }

  // ----- the whole conversion -----------------------------------------------------------------------

  /** Offsets and times as the parsers deliver them, and names without NUL. */
  ghost predicate Plain(values: seq<Transition>) {
    forall t :: t in values ==>
        Fits(t.at, 8) && Fits(t.offsetFrom, 4) && Fits(t.offsetTo, 4) && 0 !in t.name && |t.name| < 0x4000_0000
  }

  lemma {:induction false} TypesWritable(transitions: seq<Transition>, types: seq<ZoneType>, indexes: Bytes)
    requires transitions != [] && Plain(transitions)
    requires IndexedFor(transitions, InitialType(transitions[0]), types, indexes)
    ensures Writable(types) && forall t :: t in types ==> |t.name| < 0x4000_0000
  {
    forall t | t in types ensures Fits(t.offset, 4) && 0 !in t.name && |t.name| < 0x4000_0000 {
      var k :| 0 <= k < |types| && types[k] == t;
      if k == 0 {
        assert transitions[0] in transitions;
      } else {
        var i :| 0 <= i < |transitions| && KindOf(transitions[i]) == types[k];
        assert transitions[i] in transitions;
      }
    }
  }

  lemma {:induction false} AbbreviationsFit(types: seq<ZoneType>, positions: Bytes)
    requires types != [] && Positions(types, positions) && |types[|types| - 1].name| < 0x4000_0000
    ensures Fits(|Abbreviations(types)|, 4)
  {
    var n := |types| - 1;
    AbbreviationsAppend(types[..n], types[n]);
    assert types == types[..n] + [types[n]];
    Int32IsFourOctets();
  }

  lemma {:induction false} RunsLength(values: seq<Transition>)
    ensures |LastOfRuns(values)| <= |values| && (LastOfRuns(values) == [] <==> values == [])
  {
    if values != [] {
      RunsLength(values[1..]);
    }
  }

  /** How many of ascending times are not after an instant. */
  function Passed(times: seq<int>, at: int): (n: nat)
    ensures n <= |times|
  {
    if times == [] || times[0] > at then 0 else 1 + Passed(times[1..], at)
  }

  /** What a reader takes to be in force: the type of the last time passed, or the first type. */
  function TypeAt(zone: Decoded, at: int): Option<ZoneType> {
    var n := Passed(zone.times, at);
    if n == 0 then if zone.types == [] then None else Some(zone.types[0])
    else if n <= |zone.indexes| && zone.indexes[n - 1] as int < |zone.types|
      then Some(zone.types[zone.indexes[n - 1] as int])
    else None
  }

  /** Of the transitions listed, this is the latest not after an instant; the last one listed, if
      several have its time. */
  ghost predicate InForce(values: seq<Transition>, i: nat, at: int)
    requires i < |values|
  {
    && values[i].at <= at
    && forall j :: 0 <= j < |values| && values[j].at <= at ==>
         values[j].at < values[i].at || (values[j].at == values[i].at && j <= i)
  }

  /** A decoded file says of every kept transition when it happens and what it changes to. */
  ghost predicate Describes(decoded: Decoded, kept: seq<Transition>) {
    && decoded.times == AtOf(kept) && |decoded.indexes| == |kept|
    && decoded.types != [] && (kept != [] ==> ChangesFrom(decoded.types[0], kept[0]))
    && forall i :: 0 <= i < |kept| ==>
         decoded.indexes[i] as int < |decoded.types| && ChangesTo(decoded.types[decoded.indexes[i] as int], kept[i])
  }

  lemma {:induction false} PassedAt(times: seq<int>, k: nat, at: int)
    requires k < |times| && forall i, j :: 0 <= i < j < |times| ==> times[i] < times[j]
    requires times[k] <= at && (k + 1 < |times| ==> at < times[k + 1])
    ensures Passed(times, at) == k + 1
  {
    if k > 0 {
      assert times[0] < times[k];
      PassedAt(times[1..], k - 1, at);
    } else if |times| > 1 {
      assert times[1..][0] == times[1];
    }
  }

  lemma {:induction false} LastWithAt(values: seq<Transition>, i: nat)
    requires i < |values| && forall j :: i < j < |values| ==> values[j].at != values[i].at
    ensures LastWith(values, values[i].at) == Some(values[i])
  {
    var rest := values[1..];
    LastWithExists(rest, values[i].at);
    if i > 0 {
      assert forall j :: i - 1 < j < |rest| ==> rest[j] == values[j + 1];
      LastWithAt(rest, i - 1);
    } else {
      assert forall j :: 0 <= j < |rest| ==> rest[j] == values[j + 1];
    }
  }

  lemma {:induction false} AtOfKept(kept: seq<Transition>)
    requires StrictlyAscending(kept)
    ensures forall k :: 0 <= k < |kept| ==> AtOf(kept)[k] == kept[k].at
    ensures forall i, j :: 0 <= i < j < |kept| ==> AtOf(kept)[i] < AtOf(kept)[j]
  {
    forall k | 0 <= k < |kept| ensures AtOf(kept)[k] == kept[k].at { AtOfEach(kept, k); }
  }

  /** The zone tells what the transition in force changed to. */
  lemma {:induction false} ZoneTells(values: seq<Transition>, zone: Decoded, i: nat, at: int)
    requires Ascending(values) && Describes(zone, LastOfRuns(values)) && i < |values| && InForce(values, i, at)
    ensures TypeAt(zone, at).Some? && ChangesTo(TypeAt(zone, at).value, values[i])
  {
    var kept := LastOfRuns(values);
    var k := KeptInForce(values, i, at);
    LastOfRunsFacts(values);
    AtOfKept(kept);
    PassedAt(AtOf(kept), k, at);
  }

  lemma {:induction false} KeptInForce(values: seq<Transition>, i: nat, at: int) returns (k: nat)
    requires Ascending(values) && i < |values| && InForce(values, i, at)
    ensures var kept := LastOfRuns(values);
            k < |kept| && kept[k] == values[i] && (k + 1 < |kept| ==> at < kept[k + 1].at)
  {
    var kept := LastOfRuns(values);
    LastOfRunsFacts(values);
    LastWithAt(values, i);
    assert values[i] in kept;
    k :| 0 <= k < |kept| && kept[k] == values[i];
    if k + 1 < |kept| {
      assert kept[k].at < kept[k + 1].at;
      RunsWithin(values);
      var j :| 0 <= j < |values| && values[j] == kept[k + 1];
    }
  }

  /** Before every transition, what the first one changed from. */
  lemma {:induction false} ZoneTellsBefore(values: seq<Transition>, zone: Decoded, at: int)
    requires Ascending(values) && Describes(zone, LastOfRuns(values)) && values != []
    requires forall v :: v in values ==> at < v.at
    ensures exists i :: 0 <= i < |values| && InForce(values, i, values[0].at)
                        && TypeAt(zone, at).Some? && ChangesFrom(TypeAt(zone, at).value, values[i])
  {
    var kept := LastOfRuns(values);
    LastOfRunsFacts(values);
    RunsWithin(values);
    RunsLength(values);
    AtOfKept(kept);
    assert kept[0] in values;
    FirstKept(values);
    var i :| 0 <= i < |values| && InForce(values, i, values[0].at) && kept[0] == values[i];
  }

  lemma {:induction false} FirstKept(values: seq<Transition>)
    requires Ascending(values) && values != []
    ensures LastOfRuns(values) != []
    ensures exists i :: 0 <= i < |values| && InForce(values, i, values[0].at) && LastOfRuns(values)[0] == values[i]
  {
    if |values| > 1 && values[0].at == values[1].at {
      var rest := values[1..];
      FirstKept(rest);
      var i :| 0 <= i < |rest| && InForce(rest, i, rest[0].at) && LastOfRuns(rest)[0] == rest[i];
      assert values[i + 1] == rest[i];
      forall j | 0 <= j < |values| && values[j].at <= values[0].at
        ensures values[j].at < values[i + 1].at || (values[j].at == values[i + 1].at && j <= i + 1)
      {
        if j > 0 { assert rest[j - 1] == values[j]; }
      }
      assert InForce(values, i + 1, values[0].at);
    } else {
      forall j | 1 <= j < |values| ensures values[j].at > values[0].at {
        assert values[0].at <= values[1].at <= values[j].at;
      }
      assert InForce(values, 0, values[0].at);
    }
  }

  /** An indexed and written zone is read back as what it describes. */
  lemma {:induction false} WrittenZone(kept: seq<Transition>, types: seq<ZoneType>, indexes: Bytes, positions: Bytes)
    requires kept != [] && Plain(kept) && Fits(|kept|, 4) && |types| <= 256 && Positions(types, positions)
    requires IndexedFor(kept, InitialType(kept[0]), types, indexes)
    ensures var data := File(kept, indexes, types, positions);
            && ReadFile(data) == Some(Decoded(AtOf(kept), indexes, types)) && Describes(ReadFile(data).value, kept)
            && ReadBlock(data, 4).Some?
            && ReadBlock(data, 4).value.decoded
               == Decoded(AtOf(VersionOne(kept)), VersionOneIndexes(kept, indexes), types)
  {
    assert Writable(types) && Fits(|Abbreviations(types)|, 4) && Fits(|types|, 4) by {
      TypesWritable(kept, types, indexes);
      AbbreviationsFit(types, positions);
      Int32IsFourOctets();
    }
    FileReadBack(kept, indexes, types, positions);
    IndexedDescribes(kept, types, indexes);
  }

  lemma {:induction false} IndexedDescribes(kept: seq<Transition>, types: seq<ZoneType>, indexes: Bytes)
    requires kept != [] && IndexedFor(kept, InitialType(kept[0]), types, indexes)
    ensures Describes(Decoded(AtOf(kept), indexes, types), kept)
  {
    KindsMean(kept[0], types[0]);
    forall i | 0 <= i < |kept|
      ensures indexes[i] as int < |types| && ChangesTo(types[indexes[i] as int], kept[i])
    {
      KindsMean(kept[i], types[indexes[i] as int]);
    }
  }

  /** The names of all types but the last, each with its NUL. */
  function NamesBefore(types: seq<ZoneType>): nat {
    if |types| <= 1 then 0 else |types[0].name| + 1 + NamesBefore(types[1..])
  }

  lemma {:induction false} NamesUpTo(types: seq<ZoneType>, i: nat)
    requires i < |types|
    ensures |Abbreviations(types[..i])| <= NamesBefore(types)
    ensures i == |types| - 1 ==> |Abbreviations(types[..i])| == NamesBefore(types)
  {
    if i > 0 {
      NamesUpTo(types[1..], i - 1);
      assert types[..i][1..] == types[1..][..i - 1];
    }
  }

  /** The last position decides whether all of them fit. */
  lemma {:induction false} PositionsFit(types: seq<ZoneType>)
    requires types != []
    ensures (exists i :: 0 <= i < |types| && |Abbreviations(types[..i])| > 255) <==> NamesBefore(types) > 255
  {
    NamesUpTo(types, |types| - 1);
    forall i | 0 <= i < |types| ensures |Abbreviations(types[..i])| <= NamesBefore(types) { NamesUpTo(types, i); }
  }

  /** What these transitions say: at every instant the change in force then, and before all of
      them what the first one changed from. */
  ghost predicate TellsChanges(zone: Decoded, values: seq<Transition>) {
    && (forall i, at :: 0 <= i < |values| && InForce(values, i, at) ==>
          TypeAt(zone, at).Some? && ChangesTo(TypeAt(zone, at).value, values[i]))
    && (forall at {:trigger TypeAt(zone, at)} :: values != [] && (forall v :: v in values ==> at < v.at) ==>
          exists i :: 0 <= i < |values| && InForce(values, i, values[0].at)
                      && TypeAt(zone, at).Some? && ChangesFrom(TypeAt(zone, at).value, values[i]))
  }

  /** A file that tells the changes in version 2 and, as far as 32 bits go, in version 1. */
  ghost predicate TellsZone(data: Bytes, values: seq<Transition>) {
    var first, zone := ReadBlock(data, 4), ReadFile(data);
    && first.Some? && zone.Some?
    && |zone.value.indexes| == |zone.value.times|
    && |first.value.decoded.indexes| == |first.value.decoded.times|
    && Restricts(first.value.decoded, zone.value)
    && TellsChanges(zone.value, values)
  }

  lemma {:induction false} DescribedTells(values: seq<Transition>, zone: Decoded)
    requires Ascending(values) && Describes(zone, LastOfRuns(values))
    ensures TellsChanges(zone, values)
  {
    forall i, at | 0 <= i < |values| && InForce(values, i, at)
      ensures TypeAt(zone, at).Some? && ChangesTo(TypeAt(zone, at).value, values[i])
    {
      ZoneTells(values, zone, i, at);
    }
    forall at | values != [] && forall v :: v in values ==> at < v.at
      ensures exists i :: 0 <= i < |values| && InForce(values, i, values[0].at)
                          && TypeAt(zone, at).Some? && ChangesFrom(TypeAt(zone, at).value, values[i])
    {
      ZoneTellsBefore(values, zone, at);
    }
  }

  lemma {:induction false} WrittenTells(values: seq<Transition>, types: seq<ZoneType>, indexes: Bytes,
                                        positions: Bytes)
    requires Ascending(values) && values != [] && Plain(values) && Fits(|values|, 4) && |types| <= 256
    requires Positions(types, positions) && LastOfRuns(values) != []
    requires IndexedFor(LastOfRuns(values), InitialType(LastOfRuns(values)[0]), types, indexes)
    ensures var data := File(LastOfRuns(values), indexes, types, positions);
            && TellsZone(data, values) && ReadFile(data).Some? && ReadFile(data).value.types == types
            && Describes(ReadFile(data).value, LastOfRuns(values))
  {
    var kept := LastOfRuns(values);
    LastOfRunsFacts(values);
    RunsLength(values);
    assert Plain(kept) by { RunsWithin(values); }
    WrittenZone(kept, types, indexes, positions);
    DescribedTells(values, ReadFile(File(kept, indexes, types, positions)).value);
    VersionOneRestricts(kept, indexes, types);
  }

  ghost predicate Decides(types: seq<ZoneType>, result: Result<Bytes, Failure>) {
    && (result == Err(TooManyTypes) <==> |types| > 256)
    && (result == Err(AbbreviationsTooLarge) <==> |types| <= 256 && NamesBefore(types) > 255)
    && (result.Ok? <==> |types| <= 256 && NamesBefore(types) <= 255)
    && (result.Ok? ==> ReadFile(result.value).Some? && ReadFile(result.value).value.types == types)
  }

  /** locationFromVTimezone after the sort. What the written file says, read back, is the last
      transition of every time, in strictly ascending order, and at every instant the change in
      force then. It fails exactly without transitions, above 256 types, or when the names before
      the last take more than 255 octets. */
  method EmbeddedZone(values: array<Transition>) returns (result: Result<Bytes, Failure>)
    requires Ascending(values[..]) && Plain(values[..]) && Fits(values.Length, 4)
    modifies values
    ensures result.Ok? ==>
      var kept := LastOfRuns(old(values[..]));
      && StrictlyAscending(kept) && (forall t :: t in kept <==> LastWith(old(values[..]), t.at) == Some(t))
      && ReadFile(result.value).Some? && Describes(ReadFile(result.value).value, kept)
    ensures result.Ok? ==> TellsZone(result.value, old(values[..]))
    ensures result == Err(NoTransitions) <==> old(values[..]) == []
    ensures old(values[..]) != [] ==>
      var kept := LastOfRuns(old(values[..]));
      kept != [] && exists types :: InOrderOfUse(types, kept[0], kept) && Decides(types, result)
  {
    ghost var original := values[..];
    LastOfRunsFacts(original);
    RunsLength(original);
    var count := DeduplicateTransitions(values);
    var transitions := values[..count];
    var indexed := IndexTypes(transitions);
    if indexed.Err? {
      return Err(indexed.error);
    }
    PositionsFit(indexed.value.types);
    var built, positions := BuildTzif(transitions, indexed.value.indexes, indexed.value.types);
    if built.Ok? {
      WrittenTells(original, indexed.value.types, indexed.value.indexes, positions);
    }
    return built;
  }
}
