/** The textual forms themselves: what UTF-8 calls an octet count, how far folding fills its lines,
    which foldings are undone, what an escaped value is free of, and the digits of framed keys. */
module TextForms {
  import opened Wrappers
  import opened ContentLines
  import opened FramedKeys

  // ----- UTF-8 ------------------------------------------------------------------------------------

  /** One character in UTF-8, by section 3 of RFC 3629. */
  function Utf8(c: char): seq<int> {
    var n := c as int;
    if n <= 0x7F then [n]
    else if n <= 0x7FF then [0xC0 + n / 64, 0x80 + n % 64]
    else if n <= 0xFFFF then [0xE0 + n / 4096, 0x80 + n / 64 % 64, 0x80 + n % 64]
    else [0xF0 + n / 262144, 0x80 + n / 4096 % 64, 0x80 + n / 64 % 64, 0x80 + n % 64]
  }

  function Utf8All(s: string): seq<int> {
    if s == "" then [] else Utf8All(s[..|s| - 1]) + Utf8(s[|s| - 1])
  }

  /** Counting octets is counting the bytes of the encoding. */
  lemma {:induction false} OctetsAreUtf8(s: string)
    ensures Octets(s) == |Utf8All(s)|
  {
    if s != "" { OctetsAreUtf8(s[..|s| - 1]); }
  }

  // ----- how far lines are filled -----------------------------------------------------------------

  /** A line is broken only before a character that no longer fits. */
  ghost predicate Full(piece: string, next: string) {
    |next| >= 2 && next[0] == ' ' && |Utf8All(piece)| + |Utf8(next[1])| > 75
  }

  lemma {:induction false} PiecesAreFull(s: string, current: string, used: nat)
    requires |Utf8All(current)| == used
    ensures var pieces := Pieces(s, current, used);
            && pieces != [] && current <= pieces[0]
            && forall i :: 0 <= i < |pieces| - 1 ==> Full(pieces[i], pieces[i + 1])
    decreases |s|
  {
    if s != "" {
      if used + Size(s[0]) > LIMIT {
        var next := " " + [s[0]];
        assert next[..1] == " " && next[..1][..0] == "";
        assert Utf8All(next) == Utf8All(" ") + Utf8(s[0]) && Utf8All(" ") == Utf8All("") + Utf8(' ');
        PiecesAreFull(s[1..], next, 1 + Size(s[0]));
        var rest := Pieces(s[1..], next, 1 + Size(s[0]));
        assert next <= rest[0] && rest[0][0] == ' ' && rest[0][1] == s[0];
        var pieces := [current] + rest;
        forall i | 0 <= i < |pieces| - 1 ensures Full(pieces[i], pieces[i + 1]) {
          assert i > 0 ==> pieces[i] == rest[i - 1] && pieces[i + 1] == rest[i];
        }
      } else {
        assert (current + [s[0]])[..|current|] == current;
        PiecesAreFull(s[1..], current + [s[0]], used + Size(s[0]));
      }
    }
  }

  /** A line within 75 octets is left alone; a longer one is broken, each time as late as the limit
      allows. */
  lemma {:induction false} FoldedAsLateAsPossible(line: string)
    ensures |Utf8All(line)| <= 75 ==> Fold(line) == line && PhysicalLines(line) == [line]
    ensures var pieces := PhysicalLines(line);
            && pieces != [] && JoinCrlf(pieces) == Fold(line)
            && forall i :: 0 <= i < |pieces| - 1 ==> Full(pieces[i], pieces[i + 1])
  {
    OctetsAreUtf8(line);
    FoldIsPieces(line, "", 0);
    PiecesAreFull(line, "", 0);
    assert "" + FoldFrom(line, 0) == FoldFrom(line, 0);
  }

  // ----- any folding is undone --------------------------------------------------------------------

  /** Where a line was broken: with CRLF or LF, before a tab or a space. */
  datatype Break = Break(lf: bool, tab: bool)

  function LineEnd(b: Break): string { if b.lf then "\n" else "\r\n" }

  function Indent(b: Break): string { if b.tab then "\t" else " " }

  /** The pieces of a line after its first, each with the break before it. */
  function Broken(pieces: seq<string>, breaks: seq<Break>): string
    requires |pieces| == |breaks|
  {
    if pieces == [] then ""
    else LineEnd(breaks[0]) + Indent(breaks[0]) + pieces[0] + Broken(pieces[1..], breaks[1..])
  }

  function Whole(pieces: seq<string>): string { if pieces == [] then "" else pieces[0] + Whole(pieces[1..]) }

  function Indented(pieces: seq<string>, breaks: seq<Break>): seq<string>
    requires |pieces| == |breaks|
  {
    if pieces == [] then []
    else [Indent(breaks[0]) + pieces[0]] + Indented(pieces[1..], breaks[1..])
  }

  lemma {:induction false} LfOnlyPrefix(line: string, rest: string)
    requires OneLine(line)
    ensures LfOnly(line + rest) == line + LfOnly(rest)
  {
    if line == "" {
      assert line + rest == rest;
    } else {
      assert (line + rest)[1..] == line[1..] + rest;
      LfOnlyPrefix(line[1..], rest);
    }
  }

  lemma {:induction false} RawAny(line: string, end: Break, rest: string)
    requires OneLine(line)
    ensures RawLines(line + (LineEnd(end) + rest)) == [line] + RawLines(rest)
  {
    if end.lf {
      LfOnlyPrefix(line, "\n" + rest);
      assert ("\n" + rest)[1..] == rest;
      assert LfOnly("\n" + rest) == "\n" + LfOnly(rest);
      assert line + ("\n" + LfOnly(rest)) == line + "\n" + LfOnly(rest);
      SplitLine(line, LfOnly(rest));
    } else {
      assert line + ("\r\n" + rest) == line + "\r\n" + rest;
      RawLine(line, rest);
    }
  }

  lemma Regroup(a: string, b: string, c: string, d: string, e: string, f: string)
    ensures a + (b + c + d + e) + f == a + (b + (c + d + e + f))
  {
  }

  ghost predicate AllOneLine(pieces: seq<string>) { forall p :: p in pieces ==> OneLine(p) }

  lemma {:induction false} OneLineJoin(a: string, b: string)
    requires OneLine(a) && OneLine(b)
    ensures OneLine(a + b)
  {
  }

  lemma {:induction false} BrokenRaw(first: string, pieces: seq<string>, breaks: seq<Break>, end: Break)
    requires |pieces| == |breaks| && OneLine(first) && AllOneLine(pieces)
    ensures RawLines(first + Broken(pieces, breaks) + LineEnd(end)) == [first] + Indented(pieces, breaks) + [""]
    decreases |pieces|
  {
    if pieces == [] {
      assert first + "" == first && LineEnd(end) + "" == LineEnd(end);
      RawAny(first, end, "");
      assert [first] + [] + [""] == [first] + [""];
    } else {
      var next := Indent(breaks[0]) + pieces[0];
      var rest := Broken(pieces[1..], breaks[1..]);
      OneLineJoin(Indent(breaks[0]), pieces[0]);
      Regroup(first, LineEnd(breaks[0]), Indent(breaks[0]), pieces[0], rest, LineEnd(end));
      RawAny(first, breaks[0], next + rest + LineEnd(end));
      BrokenRaw(next, pieces[1..], breaks[1..], end);
      ConsWithin(first, next, Indented(pieces[1..], breaks[1..]));
    }
  }

  lemma ConsWithin(first: string, next: string, rest: seq<string>)
    ensures [first] + ([next] + rest + [""]) == [first] + ([next] + rest) + [""]
  {
  }

  lemma {:induction false} IndentedJoin(before: seq<string>, last: string, pieces: seq<string>, breaks: seq<Break>)
    requires |pieces| == |breaks| && Joined(before) == [last]
    ensures Joined(before + Indented(pieces, breaks)) == [last + Whole(pieces)]
    decreases |pieces|
  {
    if pieces == [] {
      assert before + [] == before && last + "" == last;
    } else {
      var next := Indent(breaks[0]) + pieces[0];
      JoinedNext(before, next);
      AddIndented(last, pieces[0], breaks[0]);
      IndentedJoin(before + [next], last + pieces[0], pieces[1..], breaks[1..]);
      Associates(before, [next], Indented(pieces[1..], breaks[1..]));
      Associates(last, pieces[0], Whole(pieces[1..]));
    }
  }

  lemma Associates<T>(a: seq<T>, b: seq<T>, c: seq<T>)
    ensures a + b + c == a + (b + c)
  {
  }

  lemma {:induction false} AddIndented(last: string, piece: string, b: Break)
    ensures AddRaw([last], Indent(b) + piece) == [last + piece]
  {
    assert (Indent(b) + piece)[1..] == piece;
    assert [last][0 := last + piece] == [last + piece];
  }

  /** However a line was broken, it is read as it was; a CR before its CRLF is dropped. */
  lemma {:induction false} AnyFoldIsUndone(first: string, pieces: seq<string>, breaks: seq<Break>, end: Break)
    requires |pieces| == |breaks| && OneLine(first) && AllOneLine(pieces)
    ensures Unfold(first + Broken(pieces, breaks) + LineEnd(end)) == [first + Whole(pieces), ""]
  {
    BrokenRaw(first, pieces, breaks, end);
    assert [first][..0] == [];
    assert Joined([first]) == [first];
    IndentedJoin([first], first, pieces, breaks);
    JoinedNext([first] + Indented(pieces, breaks), "");
  }

  lemma {:induction false} StrayCrIsDropped(line: string)
    requires OneLine(line)
    ensures Unfold(line + "\r\r\n") == [line, ""] && Unfold(line + "\r") == [line]
  {
    LfOnlyPrefix(line, "\r\r\n");
    LfOnlyPrefix(line, "\r");
    assert "\r\r\n"[1..] == "\r\n" && "\r\n"[2..] == "" && "\r"[1..] == "";
    assert LfOnly("\r\r\n") == "\r\n" && LfOnly("\r") == "\r";
    SplitCr(line);
    assert [line + "\r"][..0] == [] && [line + "\r", ""][..1] == [line + "\r"];
    assert (line + "\r")[..|line|] == line;
    assert Joined([line + "\r"]) == [line];
    JoinedNext([line + "\r"], "");
    assert [line + "\r"] + [""] == [line + "\r", ""];
  }

  lemma {:induction false} SplitCr(line: string)
    requires OneLine(line)
    ensures Split(line + "\r\n") == [line + "\r", ""] && Split(line + "\r") == [line + "\r"]
  {
    if line == "" {
      assert "\r\n"[1..] == "\n" && "\n"[1..] == "" && "\r"[1..] == "";
      assert Split("\n") == [""] + Split("") == ["", ""];
      assert Split("\n")[1..] == [""] && Split("")[1..] == [] && ['\r'] + "" == "\r";
      assert Split("\r\n") == ["\r"] + [""] == ["\r", ""] && Split("\r") == ["\r"] + [] == ["\r"];
      assert "" + "\r\n" == "\r\n" && "" + "\r" == "\r";
    } else {
      assert (line + "\r\n")[1..] == line[1..] + "\r\n" && (line + "\r")[1..] == line[1..] + "\r";
      SplitCr(line[1..]);
      assert [line[0]] + (line[1..] + "\r") == line + "\r";
    }
  }

  // ----- escaping ---------------------------------------------------------------------------------

  /** No separator or line break stands outside a pair that a backslash begins. */
  predicate NothingBare(s: string) {
    if s == "" then true
    else if s[0] == '\\' then |s| >= 2 && s[1] in "\\,;nN" && NothingBare(s[2..])
    else s[0] != ',' && s[0] != ';' && s[0] != '\n' && NothingBare(s[1..])
  }

  /** So escaped values can be listed with commas and end at a semicolon. */
  lemma {:induction false} EscapedHasNothingBare(v: string)
    ensures NothingBare(Escape(v))
  {
    if v != "" {
      if |v| >= 2 && v[0] == '\r' && v[1] == '\n' {
        EscapedHasNothingBare(v[2..]);
        assert ("\\n" + Escape(v[2..]))[2..] == Escape(v[2..]);
      } else {
        EscapedHasNothingBare(v[1..]);
        var rest := Escape(v[1..]);
        assert ("\\\\" + rest)[2..] == rest && ("\\n" + rest)[2..] == rest;
        assert ("\\," + rest)[2..] == rest && ("\\;" + rest)[2..] == rest && ([v[0]] + rest)[1..] == rest;
      }
    }
  }

  /** What is read for each pair, and for a backslash that begins none. */
  lemma {:induction false} PairsAreRead(rest: string, c: char)
    requires c !in "nN,;\\"
    ensures Unescape("\\n" + rest) == "\n" + Unescape(rest) && Unescape("\\N" + rest) == "\n" + Unescape(rest)
    ensures Unescape("\\," + rest) == "," + Unescape(rest) && Unescape("\\;" + rest) == ";" + Unescape(rest)
    ensures Unescape("\\\\" + rest) == "\\" + Unescape(rest)
    ensures Unescape("\\" + [c] + rest) == "\\" + [c] + Unescape(rest) && Unescape("\\") == "\\"
  {
    assert ("\\n" + rest)[2..] == rest && ("\\N" + rest)[2..] == rest && ("\\\\" + rest)[2..] == rest;
    assert ("\\," + rest)[2..] == rest && ("\\;" + rest)[2..] == rest;
    assert ("\\" + [c] + rest)[1..] == [c] + rest && ([c] + rest)[1..] == rest && "\\"[1..] == "";
    assert Unescape([c] + rest) == [c] + Unescape(rest);
  }

  // ----- framed keys ------------------------------------------------------------------------------

  function DecimalText(n: nat): string {
    if n < 10 then ["0123456789"[n]] else DecimalText(n / 10) + ["0123456789"[n % 10]]
  }

  ghost predicate SpeltOut(bytes: Bytes, text: string) {
    |bytes| == |text| && forall i :: 0 <= i < |bytes| ==> bytes[i] as int == text[i] as int
  }

  lemma {:induction false} DecimalIsText(n: nat)
    ensures SpeltOut(Decimal(n), DecimalText(n))
  {
    if n >= 10 { DecimalIsText(n / 10); }
  }

  /** A framed part is its length in decimal, a colon and the part; an attachment's key is that of
      its message, a slash and its id. */
  lemma {:induction false} FrameIsText(part: Bytes, connection: Bytes, folder: Bytes, uidValidity: nat, uid: nat,
                                       attachment: Bytes)
    ensures exists head :: SpeltOut(head, DecimalText(|part|) + ":") && Frame(part) == head + part
    ensures exists slash :: SpeltOut(slash, "/")
                            && AttachmentCacheKey(connection, folder, uidValidity, uid, attachment)
                               == MessageCacheKey(connection, folder, uidValidity, uid) + slash + attachment
  {
    DecimalIsText(|part|);
    assert SpeltOut(Decimal(|part|) + [COLON], DecimalText(|part|) + ":");
    assert SpeltOut([SLASH], "/");
  }
}
