/** Content lines of an iCalendar stream: folding (section 3.1 of RFC 5545) and the escaping of
    text values (section 3.3.11). Text is a sequence of Unicode scalar values. */
module ContentLines {
  import opened Wrappers

  const LIMIT: nat := 75

  /** The octets of one character in UTF-8. */
  function Size(c: char): nat {
    if c as int < 0x80 then 1 else if c as int < 0x800 then 2 else if c as int < 0x10000 then 3 else 4
  }

  function Octets(s: string): nat {
    if s == "" then 0 else Octets(s[..|s| - 1]) + Size(s[|s| - 1])
  }

  predicate OneLine(s: string) { '\r' !in s && '\n' !in s }

  // ----- folding --------------------------------------------------------------------------------

  /** The rest of a folded line when `used` octets of the physical line are taken. */
  function FoldFrom(s: string, used: nat): string {
    if s == "" then ""
    else if used + Size(s[0]) > LIMIT then "\r\n " + [s[0]] + FoldFrom(s[1..], 1 + Size(s[0]))
    else [s[0]] + FoldFrom(s[1..], used + Size(s[0]))
  }

  function Fold(line: string): string {
    if Octets(line) <= LIMIT then line else FoldFrom(line, 0)
  }

  lemma {:induction false} FoldStep(line: string, i: nat, used: nat, folded: string)
    requires i < |line|
    ensures folded + FoldFrom(line[i..], used)
            == if used + Size(line[i]) > LIMIT
               then folded + "\r\n " + [line[i]] + FoldFrom(line[i + 1..], 1 + Size(line[i]))
               else folded + [line[i]] + FoldFrom(line[i + 1..], used + Size(line[i]))
  {
    assert line[i..][0] == line[i] && line[i..][1..] == line[i + 1..];
  }

  method FoldLine(line: string) returns (folded: string)
    ensures folded == Fold(line)
  {
    if Octets(line) <= LIMIT {
      return line;
    }
    folded := "";
    var lineBytes: nat := 0;
    for i := 0 to |line|
      invariant folded + FoldFrom(line[i..], lineBytes) == FoldFrom(line, 0)
    {
      var size := Size(line[i]);
      FoldStep(line, i, lineBytes, folded);
      if lineBytes + size > LIMIT {
        folded := folded + "\r\n ";
        lineBytes := 1;
      }
      folded := folded + [line[i]];
      lineBytes := lineBytes + size;
    }
  }

  /** The physical lines, the first of which begins with `current`. */
  function Pieces(s: string, current: string, used: nat): seq<string> {
    if s == "" then [current]
    else if used + Size(s[0]) > LIMIT then [current] + Pieces(s[1..], " " + [s[0]], 1 + Size(s[0]))
    else Pieces(s[1..], current + [s[0]], used + Size(s[0]))
  }

  function JoinCrlf(pieces: seq<string>): string
    requires pieces != []
  {
    if |pieces| == 1 then pieces[0] else pieces[0] + "\r\n" + JoinCrlf(pieces[1..])
  }

  lemma {:induction false} OctetsAppend(s: string, c: char)
    ensures Octets(s + [c]) == Octets(s) + Size(c)
  {
    assert (s + [c])[..|s|] == s;
  }

  /** A physical line: within the limit and without line breaks. */
  predicate Physical(piece: string) { Octets(piece) <= LIMIT && OneLine(piece) }

  /** Physical lines that continue another. */
  predicate Continuations(pieces: seq<string>) {
    pieces == [] || (pieces[0] != "" && pieces[0][0] == ' ' && Physical(pieces[0]) && Continuations(pieces[1..]))
  }

  /** What continuations add to the line they continue. */
  function GlueTail(pieces: seq<string>): string
    requires Continuations(pieces)
  {
    if pieces == [] then "" else pieces[0][1..] + GlueTail(pieces[1..])
  }

  lemma {:induction false} SpaceFirst(c: char)
    requires OneLine([c])
    ensures Octets(" " + [c]) == 1 + Size(c) && OneLine(" " + [c])
  {
    OctetsAppend("", ' ');
    assert "" + [' '] == " ";
    OctetsAppend(" ", c);
  }

  /** One physical line and its continuations, none longer than the limit. */
  lemma {:induction false} PiecesArePhysical(s: string, current: string, used: nat)
    requires OneLine(s) && OneLine(current) && Octets(current) == used <= LIMIT
    ensures var pieces := Pieces(s, current, used);
            pieces != [] && Physical(pieces[0]) && Continuations(pieces[1..])
    decreases |s|
  {
    if s != "" {
      assert OneLine(s[1..]) && OneLine([s[0]]);
      if used + Size(s[0]) > LIMIT {
        SpaceFirst(s[0]);
        PiecesArePhysical(s[1..], " " + [s[0]], 1 + Size(s[0]));
        BreakContinues(s[1..], " " + [s[0]], 1 + Size(s[0]));
        var rest := Pieces(s[1..], " " + [s[0]], 1 + Size(s[0]));
        assert ([current] + rest)[1..] == rest;
      } else {
        OctetsAppend(current, s[0]);
        PiecesArePhysical(s[1..], current + [s[0]], used + Size(s[0]));
      }
    }
  }

  lemma {:induction false} BreakContinues(s: string, current: string, used: nat)
    requires current != ""
    ensures var pieces := Pieces(s, current, used); pieces != [] && pieces[0] != "" && pieces[0][0] == current[0]
    decreases |s|
  {
    if s != "" && used + Size(s[0]) <= LIMIT {
      BreakContinues(s[1..], current + [s[0]], used + Size(s[0]));
    }
  }

  /** The folded text is the physical lines joined. */
  lemma {:induction false} FoldIsPieces(s: string, current: string, used: nat)
    ensures Pieces(s, current, used) != [] && JoinCrlf(Pieces(s, current, used)) == current + FoldFrom(s, used)
    decreases |s|
  {
    if s == "" {
      assert current + "" == current;
    } else if used + Size(s[0]) > LIMIT {
      var next := " " + [s[0]];
      var rest, folded := Pieces(s[1..], next, 1 + Size(s[0])), FoldFrom(s[1..], 1 + Size(s[0]));
      FoldIsPieces(s[1..], next, 1 + Size(s[0]));
      assert ([current] + rest)[1..] == rest;
      assert "\r\n" + (next + folded) == "\r\n " + [s[0]] + folded;
      Assoc(current, "\r\n", next + folded);
    } else {
      FoldIsPieces(s[1..], current + [s[0]], used + Size(s[0]));
      Assoc(current, [s[0]], FoldFrom(s[1..], used + Size(s[0])));
    }
  }

  /** Gluing the continuations to the first piece gives the line back. */
  lemma {:induction false} GluedBack(s: string, current: string, used: nat)
    requires OneLine(s) && OneLine(current) && Octets(current) == used <= LIMIT
    ensures var pieces := Pieces(s, current, used);
            pieces != [] && Continuations(pieces[1..]) && pieces[0] + GlueTail(pieces[1..]) == current + s
    decreases |s|
  {
    PiecesArePhysical(s, current, used);
    if s == "" {
      assert current + "" == current;
    } else {
      assert OneLine(s[1..]) && OneLine([s[0]]) && s == [s[0]] + s[1..];
      if used + Size(s[0]) > LIMIT {
        var next := " " + [s[0]];
        SpaceFirst(s[0]);
        GluedBack(s[1..], next, 1 + Size(s[0]));
        BreakContinues(s[1..], next, 1 + Size(s[0]));
        var rest := Pieces(s[1..], next, 1 + Size(s[0]));
        assert ([current] + rest)[1..] == rest;
        DropFirst(rest[0], GlueTail(rest[1..]), next + s[1..]);
        assert (next + s[1..])[1..] == [s[0]] + s[1..];
      } else {
        OctetsAppend(current, s[0]);
        GluedBack(s[1..], current + [s[0]], used + Size(s[0]));
        Assoc(current, [s[0]], s[1..]);
      }
    }
  }

  lemma {:induction false} DropFirst(first: string, rest: string, all: string)
    requires first != "" && first + rest == all
    ensures first[1..] + rest == all[1..]
  {
  }

  // ----- unfolding ------------------------------------------------------------------------------

  /** Every CRLF as LF. */
  function LfOnly(s: string): string {
    if |s| >= 2 && s[0] == '\r' && s[1] == '\n' then "\n" + LfOnly(s[2..])
    else if s == "" then ""
    else [s[0]] + LfOnly(s[1..])
  }

  function Split(s: string): (lines: seq<string>)
    ensures lines != []
  {
    if s == "" then [""]
    else if s[0] == '\n' then [""] + Split(s[1..])
    else
      var rest := Split(s[1..]);
      [[s[0]] + rest[0]] + rest[1..]
  }

  function RawLines(data: string): seq<string> { Split(LfOnly(data)) }

  predicate Continues(line: string) { line != "" && (line[0] == ' ' || line[0] == '\t') }

  function TrimCr(line: string): string {
    if line != "" && line[|line| - 1] == '\r' then line[..|line| - 1] else line
  }

  function AddRaw(lines: seq<string>, raw: string): seq<string> {
    if lines != [] && Continues(raw) then lines[|lines| - 1 := lines[|lines| - 1] + raw[1..]] else lines + [TrimCr(raw)]
  }

  function Joined(raw: seq<string>): seq<string> {
    if raw == [] then [] else AddRaw(Joined(raw[..|raw| - 1]), raw[|raw| - 1])
  }

  function Unfold(data: string): seq<string> { Joined(RawLines(data)) }

  method UnfoldLines(data: string) returns (lines: seq<string>)
    ensures lines == Unfold(data)
  {
    var raw := RawLines(data);
    lines := [];
    for i := 0 to |raw|
      invariant lines == Joined(raw[..i])
    {
      assert raw[..i + 1][..i] == raw[..i];
      if |lines| > 0 && Continues(raw[i]) {
        lines := lines[|lines| - 1 := lines[|lines| - 1] + raw[i][1..]];
      } else {
        lines := lines + [TrimCr(raw[i])];
      }
    }
    assert raw[..|raw|] == raw;
  }

  lemma {:induction false} LfOnlyLine(line: string, rest: string)
    requires OneLine(line)
    ensures LfOnly(line + "\r\n" + rest) == line + "\n" + LfOnly(rest)
  {
    var data := line + "\r\n" + rest;
    if line == "" {
      assert data[2..] == rest;
    } else {
      assert data[1..] == line[1..] + "\r\n" + rest;
      LfOnlyLine(line[1..], rest);
      assert [line[0]] + (line[1..] + "\n" + LfOnly(rest)) == line + "\n" + LfOnly(rest);
    }
  }

  lemma {:induction false} SplitLine(line: string, rest: string)
    requires OneLine(line)
    ensures Split(line + "\n" + rest) == [line] + Split(rest)
  {
    var data := line + "\n" + rest;
    if line == "" {
      assert data[1..] == rest;
    } else {
      assert data[1..] == line[1..] + "\n" + rest;
      SplitLine(line[1..], rest);
      assert [line[0]] + line[1..] == line;
    }
  }

  /** A physical line and its CRLF are read as one raw line. */
  lemma {:induction false} RawLine(line: string, rest: string)
    requires OneLine(line)
    ensures RawLines(line + "\r\n" + rest) == [line] + RawLines(rest)
  {
    LfOnlyLine(line, rest);
    SplitLine(line, LfOnly(rest));
  }

  lemma {:induction false} RawPieces(first: string, conts: seq<string>, rest: string)
    requires OneLine(first) && Continuations(conts)
    ensures RawLines(JoinCrlf([first] + conts) + "\r\n" + rest) == [first] + (conts + RawLines(rest))
    decreases |conts|
  {
    var pieces := [first] + conts;
    if conts == [] {
      RawLine(first, rest);
      assert conts + RawLines(rest) == RawLines(rest);
    } else {
      assert pieces[1..] == conts && conts == [conts[0]] + conts[1..];
      var tail := JoinCrlf(conts) + "\r\n" + rest;
      JoinTail(first, JoinCrlf(conts), rest);
      RawLine(first, tail);
      RawPieces(conts[0], conts[1..], rest);
      Assoc([conts[0]], conts[1..], RawLines(rest));
    }
  }

  lemma {:induction false} JoinTail(first: string, joined: string, rest: string)
    ensures (first + "\r\n" + joined) + "\r\n" + rest == first + "\r\n" + (joined + "\r\n" + rest)
  {
  }

  lemma {:induction false} JoinedNext(before: seq<string>, raw: string)
    ensures Joined(before + [raw]) == AddRaw(Joined(before), raw)
  {
    assert (before + [raw])[..|before|] == before;
  }

  /** Continuations complete the last line. */
  lemma {:induction false} JoinedContinue(before: seq<string>, head: seq<string>, last: string, conts: seq<string>)
    requires Joined(before) == head + [last] && Continuations(conts)
    ensures Joined(before + conts) == head + [last + GlueTail(conts)]
    decreases |conts|
  {
    if conts == [] {
      assert before + conts == before && last + "" == last;
    } else {
      var longer := last + conts[0][1..];
      JoinedNext(before, conts[0]);
      assert (head + [last])[|head| := longer] == head + [longer];
      JoinedContinue(before + [conts[0]], head, longer, conts[1..]);
      assert before + [conts[0]] + conts[1..] == before + conts;
      Assoc(last, conts[0][1..], GlueTail(conts[1..]));
    }
  }

  /** The physical lines of one content line. */
  function PhysicalLines(line: string): seq<string> {
    if Octets(line) <= LIMIT then [line] else Pieces(line, "", 0)
  }

  lemma {:induction false} FoldFacts(line: string)
    requires OneLine(line)
    ensures var pieces := PhysicalLines(line);
            && pieces != [] && JoinCrlf(pieces) == Fold(line) && Physical(pieces[0]) && Continuations(pieces[1..])
            && pieces[0] + GlueTail(pieces[1..]) == line && Continues(pieces[0]) == Continues(line)
  {
    if Octets(line) <= LIMIT {
      assert line + "" == line;
    } else {
      PiecesArePhysical(line, "", 0);
      FoldIsPieces(line, "", 0);
      GluedBack(line, "", 0);
      assert "" + FoldFrom(line, 0) == FoldFrom(line, 0) && "" + line == line;
      assert "" + [line[0]] == [line[0]];
      BreakContinues(line[1..], [line[0]], Size(line[0]));
    }
  }

  /** A stream of folded lines. */
  function Stream(lines: seq<string>): string {
    if lines == [] then "" else Fold(lines[0]) + "\r\n" + Stream(lines[1..])
  }

  /** No line breaks, and no line after the first looks like a continuation. */
  ghost predicate ValidLines(lines: seq<string>) {
    (forall i :: 0 <= i < |lines| ==> OneLine(lines[i])) && forall i :: 1 <= i < |lines| ==> !Continues(lines[i])
  }

  function AllPhysical(lines: seq<string>): seq<string> {
    if lines == [] then [] else PhysicalLines(lines[0]) + AllPhysical(lines[1..])
  }

  /** The raw lines of a stream: its physical lines, and an empty one at the end. */
  lemma {:induction false} StreamRaw(lines: seq<string>)
    requires forall i :: 0 <= i < |lines| ==> OneLine(lines[i])
    ensures RawLines(Stream(lines)) == AllPhysical(lines) + [""]
  {
    if lines != [] {
      var pieces := PhysicalLines(lines[0]);
      FoldFacts(lines[0]);
      StreamRaw(lines[1..]);
      assert pieces == [pieces[0]] + pieces[1..];
      RawPieces(pieces[0], pieces[1..], Stream(lines[1..]));
      Assoc([pieces[0]], pieces[1..], AllPhysical(lines[1..]) + [""]);
      Assoc(pieces, AllPhysical(lines[1..]), [""]);
    }
  }

  lemma {:induction false} ContinuationsFit(pieces: seq<string>)
    requires Continuations(pieces)
    ensures forall p :: p in pieces ==> Octets(p) <= LIMIT
  {
    if pieces != [] {
      ContinuationsFit(pieces[1..]);
      assert pieces == [pieces[0]] + pieces[1..];
    }
  }

  lemma {:induction false} PhysicalFit(lines: seq<string>)
    requires forall i :: 0 <= i < |lines| ==> OneLine(lines[i])
    ensures forall p :: p in AllPhysical(lines) ==> Octets(p) <= LIMIT
  {
    if lines != [] {
      var pieces := PhysicalLines(lines[0]);
      FoldFacts(lines[0]);
      ContinuationsFit(pieces[1..]);
      assert pieces == [pieces[0]] + pieces[1..];
      PhysicalFit(lines[1..]);
    }
  }

  lemma {:induction false} LineJoined(before: seq<string>, line: string)
    requires OneLine(line) && (Joined(before) != [] ==> !Continues(line))
    ensures Joined(before + PhysicalLines(line)) == Joined(before) + [line]
  {
    var pieces := PhysicalLines(line);
    FoldFacts(line);
    JoinedNext(before, pieces[0]);
    JoinedContinue(before + [pieces[0]], Joined(before), pieces[0], pieces[1..]);
    assert before + [pieces[0]] + pieces[1..] == before + pieces;
  }

  /** Lines that cannot be taken for continuations. */
  predicate Separate(lines: seq<string>) {
    lines == [] || (OneLine(lines[0]) && !Continues(lines[0]) && Separate(lines[1..]))
  }

  lemma {:induction false} SeparateFrom(lines: seq<string>, n: nat)
    requires 1 <= n <= |lines| && ValidLines(lines)
    ensures Separate(lines[n..])
    decreases |lines| - n
  {
    if n < |lines| {
      SeparateFrom(lines, n + 1);
      assert lines[n..][0] == lines[n] && lines[n..][1..] == lines[n + 1..];
    }
  }

  lemma {:induction false} JoinedStream(before: seq<string>, lines: seq<string>)
    requires Separate(lines)
    ensures Joined(before + AllPhysical(lines)) == Joined(before) + lines
    decreases |lines|
  {
    if lines == [] {
      assert before + AllPhysical(lines) == before && Joined(before) + lines == Joined(before);
    } else {
      var pieces := PhysicalLines(lines[0]);
      LineJoined(before, lines[0]);
      JoinedStream(before + pieces, lines[1..]);
      Assoc(before, pieces, AllPhysical(lines[1..]));
      Assoc(Joined(before), [lines[0]], lines[1..]);
      assert [lines[0]] + lines[1..] == lines;
    }
  }

  lemma {:induction false} AllJoined(lines: seq<string>)
    requires ValidLines(lines)
    ensures Joined(AllPhysical(lines)) == lines
  {
    if lines != [] {
      var none: seq<string> := [];
      LineJoined(none, lines[0]);
      assert none + PhysicalLines(lines[0]) == PhysicalLines(lines[0]);
      SeparateFrom(lines, 1);
      JoinedStream(PhysicalLines(lines[0]), lines[1..]);
      assert none + [lines[0]] + lines[1..] == lines;
    }
  }

  /** Unfolding undoes folding: the content lines come back, with the empty line the final CRLF
      leaves. */
  lemma {:induction false} UnfoldUndoesFold(lines: seq<string>)
    requires ValidLines(lines)
    ensures Unfold(Stream(lines)) == lines + [""]
  {
    StreamRaw(lines);
    AllJoined(lines);
    JoinedNext(AllPhysical(lines), "");
  }

  /** No physical line of a folded stream is longer than 75 octets. */
  lemma {:induction false} FoldedLinesFit(lines: seq<string>)
    requires forall i :: 0 <= i < |lines| ==> OneLine(lines[i])
    ensures forall p :: p in RawLines(Stream(lines)) ==> Octets(p) <= LIMIT
  {
    StreamRaw(lines);
    PhysicalFit(lines);
  }

  // ----- escaping -------------------------------------------------------------------------------

  function Escape(v: string): string {
    if v == "" then ""
    else if v[0] == '\\' then "\\\\" + Escape(v[1..])
    else if |v| >= 2 && v[0] == '\r' && v[1] == '\n' then "\\n" + Escape(v[2..])
    else if v[0] == '\n' then "\\n" + Escape(v[1..])
    else if v[0] == ',' then "\\," + Escape(v[1..])
    else if v[0] == ';' then "\\;" + Escape(v[1..])
    else [v[0]] + Escape(v[1..])
  }

  function Unescape(v: string): string {
    if v == "" then ""
    else if |v| >= 2 && v[0] == '\\' && (v[1] == 'n' || v[1] == 'N') then "\n" + Unescape(v[2..])
    else if |v| >= 2 && v[0] == '\\' && (v[1] == ',' || v[1] == ';' || v[1] == '\\') then [v[1]] + Unescape(v[2..])
    else [v[0]] + Unescape(v[1..])
  }

  lemma {:induction false} UnescapePair(c: char, rest: string)
    requires c in "nN,;\\"
    ensures Unescape("\\" + [c] + rest) == [if c == 'n' || c == 'N' then '\n' else c] + Unescape(rest)
  {
    assert ("\\" + [c] + rest)[2..] == rest;
  }

  /** Unescaping undoes escaping, but for CRLF, which comes back as LF; and an escaped value
      has no line break a fold could be confused with, other than a lone CR of its own. */
  lemma {:induction false} UnescapeUndoesEscape(v: string)
    ensures Unescape(Escape(v)) == LfOnly(v)
    ensures '\n' !in Escape(v) && ('\r' !in v ==> OneLine(Escape(v)))
  {
    if v != "" {
      if v[0] == '\r' && |v| >= 2 && v[1] == '\n' {
        UnescapeUndoesEscape(v[2..]);
        UnescapePair('n', Escape(v[2..]));
        assert "\\" + ['n'] + Escape(v[2..]) == "\\n" + Escape(v[2..]);
      } else {
        var rest := Escape(v[1..]);
        UnescapeUndoesEscape(v[1..]);
        if v[0] == '\n' {
          UnescapePair('n', rest);
          assert "\\" + ['n'] + rest == "\\n" + rest;
        } else if v[0] == '\\' || v[0] == ',' || v[0] == ';' {
          UnescapePair(v[0], rest);
          assert "\\" + [v[0]] + rest == Escape(v);
        } else {
          assert ([v[0]] + rest)[1..] == rest;
        }
      }
    }
  }
}
