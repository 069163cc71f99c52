/** What a prepared operation executes. Attachment files are read four times (digest at
    preparation, snapshot and second digest at execution, and once more when the message is
    written), and may change in between. The hash is ideal: a digest stands for everything
    that was hashed. */
module PreparedPayload {
  import opened Wrappers

  const MAX_OUTBOUND_ATTACHMENT_BYTES: nat := 25 * 1048576

  datatype Attachment = Attachment(path: string, name: string, contentType: string, data: Option<Bytes>)

  /** Mail payloads are decoded; `fields` is everything else in them. Other kinds are opaque. */
  datatype Payload = Mail(fields: string, attachments: seq<Attachment>) | Other(bytes: Bytes)

  /** The regular files that can be read. */
  type Files = map<string, Bytes>

  datatype Failure = Unreadable | OverTotal

  datatype Digest =
    | MailDigest(kind: string, fields: string, canonical: seq<Attachment>, contents: seq<Bytes>)
    | OtherDigest(kind: string, bytes: Bytes)

  /** Encoding drops empty data (omitempty), so decoding gives none. */
  function OnWireOne(a: Attachment): Attachment {
    if a.data == Some([]) then a.(data := None) else a
  }

  function OnWire(p: Payload): Payload {
    match p
    case Other(_) => p
    case Mail(fields, attachments) =>
      Mail(fields, seq(|attachments|, i requires 0 <= i < |attachments| => OnWireOne(attachments[i])))
  }

  /** Data given inline, or already snapshotted, needs no file. */
  predicate Inline(a: Attachment) { a.path == "" || a.data.Some? }

  function InlineData(a: Attachment): Bytes { if a.data.Some? then a.data.value else [] }

  function ReadRegularAttachment(files: Files, path: string, limit: int): Result<Bytes, Failure> {
    if path !in files then Err(Unreadable)
    else if |files[path]| > limit then Err(OverTotal)
    else Ok(files[path])
  }

  function Contents(a: Attachment, files: Files, limit: int): Result<Bytes, Failure> {
    if Inline(a) then Ok(InlineData(a)) else ReadRegularAttachment(files, a.path, limit)
  }

  function TotalBytes(contents: seq<Bytes>): nat {
    if contents == [] then 0 else TotalBytes(contents[..|contents| - 1]) + |contents[|contents| - 1]|
  }

  // ----- digest ---------------------------------------------------------------------------------

  /** The contents of all attachments, within the total limit. */
  function DigestedContents(attachments: seq<Attachment>, files: Files): Result<seq<Bytes>, Failure> {
    if attachments == [] then Ok([])
    else
      var last := attachments[|attachments| - 1];
      match DigestedContents(attachments[..|attachments| - 1], files)
      case Err(why) => Err(why)
      case Ok(before) =>
        match Contents(last, files, MAX_OUTBOUND_ATTACHMENT_BYTES)
        case Err(why) => Err(why)
        case Ok(bytes) =>
          if TotalBytes(before + [bytes]) > MAX_OUTBOUND_ATTACHMENT_BYTES then Err(OverTotal) else Ok(before + [bytes])
  }

  /** File-backed attachments are hashed by content, not by snapshotted data. */
  function Canonical(a: Attachment): Attachment { if a.path != "" then a.(data := None) else a }

  function CanonicalAll(attachments: seq<Attachment>): (all: seq<Attachment>)
    ensures |all| == |attachments| && forall i :: 0 <= i < |all| ==> all[i] == Canonical(attachments[i])
  {
    seq(|attachments|, i requires 0 <= i < |attachments| => Canonical(attachments[i]))
  }

  function DigestOf(kind: string, p: Payload, files: Files): Result<Digest, Failure> {
    match p
    case Other(bytes) => Ok(OtherDigest(kind, bytes))
    case Mail(fields, attachments) =>
      match DigestedContents(attachments, files)
      case Err(why) => Err(why)
      case Ok(contents) => Ok(MailDigest(kind, fields, CanonicalAll(attachments), contents))
  }

  lemma {:induction false} TotalAppend(before: seq<Bytes>, bytes: Bytes)
    ensures TotalBytes(before + [bytes]) == TotalBytes(before) + |bytes|
  {
    assert (before + [bytes])[..|before|] == before;
  }

  method DigestPayload(kind: string, p: Payload, files: Files) returns (digest: Result<Digest, Failure>)
    ensures digest == DigestOf(kind, p, files)
  {
    if p.Other? {
      return Ok(OtherDigest(kind, p.bytes));
    }
    var canonical := CanonicalAll(p.attachments);
    var contents := [];
    var attachmentBytes := 0;
    for index := 0 to |p.attachments|
      invariant DigestedContents(p.attachments[..index], files) == Ok(contents)
      invariant attachmentBytes == TotalBytes(contents)
    {
      var attachment := p.attachments[index];
      assert p.attachments[..index + 1][..index] == p.attachments[..index];
      DigestFails(p.attachments, index + 1, files);
      var bytes := Contents(attachment, files, MAX_OUTBOUND_ATTACHMENT_BYTES);
      if bytes.Err? {
        return Err(bytes.error);
      }
      attachmentBytes := attachmentBytes + |bytes.value|;
      TotalAppend(contents, bytes.value);
      if attachmentBytes > MAX_OUTBOUND_ATTACHMENT_BYTES {
        return Err(OverTotal);
      }
      contents := contents + [bytes.value];
    }
    assert p.attachments[..|p.attachments|] == p.attachments;
    return Ok(MailDigest(kind, p.fields, canonical, contents));
  }

  /** A failure on the way is the failure of the whole. */
  lemma {:induction false} DigestFails(attachments: seq<Attachment>, n: nat, files: Files)
    requires n <= |attachments|
    ensures DigestedContents(attachments[..n], files).Err? ==>
              DigestedContents(attachments, files) == DigestedContents(attachments[..n], files)
    decreases |attachments|
  {
    if n < |attachments| {
      DigestFails(attachments[..|attachments| - 1], n, files);
      assert attachments[..|attachments| - 1][..n] == attachments[..n];
    } else {
      assert attachments[..n] == attachments;
    }
  }

  lemma {:induction false} DigestFacts(attachments: seq<Attachment>, files: Files)
    requires DigestedContents(attachments, files).Ok?
    ensures var contents := DigestedContents(attachments, files).value;
            && |contents| == |attachments| && TotalBytes(contents) <= MAX_OUTBOUND_ATTACHMENT_BYTES
            && forall i :: 0 <= i < |attachments| ==>
                 if Inline(attachments[i]) then contents[i] == InlineData(attachments[i])
                 else attachments[i].path in files && contents[i] == files[attachments[i].path]
  {
    if attachments != [] { DigestFacts(attachments[..|attachments| - 1], files); }
  }

  // ----- snapshot ---------------------------------------------------------------------------------

  function InlineTotal(attachments: seq<Attachment>): nat {
    if attachments == [] then 0
    else
      var last := attachments[|attachments| - 1];
      InlineTotal(attachments[..|attachments| - 1]) + if Inline(last) then |InlineData(last)| else 0
  }

  datatype Filled = Filled(attachments: seq<Attachment>, total: nat)

  /** Files read in order, each within what the limit leaves. */
  function FillFrom(attachments: seq<Attachment>, files: Files, total: nat): Result<Filled, Failure> {
    if attachments == [] then Ok(Filled([], total))
    else
      var last := attachments[|attachments| - 1];
      match FillFrom(attachments[..|attachments| - 1], files, total)
      case Err(why) => Err(why)
      case Ok(filled) =>
        if Inline(last) then Ok(Filled(filled.attachments + [last], filled.total))
        else match ReadRegularAttachment(files, last.path, MAX_OUTBOUND_ATTACHMENT_BYTES - filled.total)
          case Err(why) => Err(why)
          case Ok(bytes) => Ok(Filled(filled.attachments + [last.(data := Some(bytes))], filled.total + |bytes|))
  }

  function SnapshotOf(p: Payload, files: Files): Result<Payload, Failure> {
    match p
    case Other(_) => Ok(p)
    case Mail(fields, attachments) =>
      if InlineTotal(attachments) > MAX_OUTBOUND_ATTACHMENT_BYTES then Err(OverTotal)
      else match FillFrom(attachments, files, InlineTotal(attachments))
        case Err(why) => Err(why)
        case Ok(filled) => Ok(OnWire(Mail(fields, filled.attachments)))
  }

  method MeasureInline(attachments: seq<Attachment>) returns (total: nat)
    ensures total == InlineTotal(attachments)
  {
    total := 0;
    for i := 0 to |attachments|
      invariant total == InlineTotal(attachments[..i])
    {
      assert attachments[..i + 1][..i] == attachments[..i];
      if Inline(attachments[i]) {
        total := total + |InlineData(attachments[i])|;
      }
    }
    assert attachments[..|attachments|] == attachments;
  }

  lemma {:induction false} FillNext(original: seq<Attachment>, index: nat, files: Files, start: nat, filled: Filled)
    requires index < |original| && FillFrom(original[..index], files, start) == Ok(filled)
    ensures var a := original[index];
            var read := ReadRegularAttachment(files, a.path, MAX_OUTBOUND_ATTACHMENT_BYTES - filled.total);
            FillFrom(original[..index + 1], files, start)
            == if Inline(a) then Ok(Filled(filled.attachments + [a], filled.total))
               else if read.Err? then Err(read.error)
               else Ok(Filled(filled.attachments + [a.(data := Some(read.value))], filled.total + |read.value|))
  {
    assert original[..index + 1][..index] == original[..index];
  }

  /** Fills the file-backed attachments one after the other, in place. */
  method FillAttachments(original: seq<Attachment>, files: Files, start: nat)
    returns (result: Result<seq<Attachment>, Failure>)
    ensures match FillFrom(original, files, start)
            case Ok(filled) => result == Ok(filled.attachments)
            case Err(why) => result == Err(why)
  {
    var attachments := original;
    var total: nat := start;
    for index := 0 to |original|
      invariant |attachments| == |original| && attachments[index..] == original[index..]
      invariant FillFrom(original[..index], files, start) == Ok(Filled(attachments[..index], total))
    {
      FillNext(original, index, files, start, Filled(attachments[..index], total));
      assert attachments[index] == attachments[index..][0] && original[index] == original[index..][0];
      var attachment := attachments[index];
      if !Inline(attachment) {
        var data := ReadRegularAttachment(files, attachment.path, MAX_OUTBOUND_ATTACHMENT_BYTES - total);
        if data.Err? {
          FillFails(original, index + 1, files, start);
          return Err(data.error);
        }
        attachment := attachment.(data := Some(data.value));
        total := total + |data.value|;
      }
      Replaced(attachments, index, attachment);
      attachments := attachments[index := attachment];
      assert attachments[index + 1..] == original[index..][1..];
      assert original[index + 1..] == original[index..][1..];
    }
    assert attachments[..|original|] == attachments && original[..|original|] == original;
    return Ok(attachments);
  }

  lemma {:induction false} Replaced(attachments: seq<Attachment>, index: nat, a: Attachment)
    requires index < |attachments|
    ensures attachments[index := a][..index + 1] == attachments[..index] + [a]
    ensures attachments[index := a][index + 1..] == attachments[index..][1..]
  {
  }

  method SnapshotAttachmentPayload(p: Payload, files: Files) returns (snapshot: Result<Payload, Failure>)
    ensures snapshot == SnapshotOf(p, files)
  {
    if p.Other? {
      return Ok(p);
    }
    var total := MeasureInline(p.attachments);
    if total > MAX_OUTBOUND_ATTACHMENT_BYTES {
      return Err(OverTotal);
    }
    var attachments := FillAttachments(p.attachments, files, total);
    if attachments.Err? {
      return Err(attachments.error);
    }
    return Ok(OnWire(Mail(p.fields, attachments.value)));
  }

  lemma {:induction false} FillFails(attachments: seq<Attachment>, n: nat, files: Files, total: nat)
    requires n <= |attachments|
    ensures FillFrom(attachments[..n], files, total).Err? ==>
              FillFrom(attachments, files, total) == FillFrom(attachments[..n], files, total)
    decreases |attachments|
  {
    if n < |attachments| {
      FillFails(attachments[..|attachments| - 1], n, files, total);
      assert attachments[..|attachments| - 1][..n] == attachments[..n];
    } else {
      assert attachments[..n] == attachments;
    }
  }

  /** A snapshot fills exactly the file-backed attachments, with what the files held. */
  lemma {:induction false} FillFacts(attachments: seq<Attachment>, files: Files, total: nat)
    requires FillFrom(attachments, files, total).Ok?
    ensures var filled := FillFrom(attachments, files, total).value.attachments;
            && |filled| == |attachments|
            && forall i :: 0 <= i < |attachments| ==>
                 if Inline(attachments[i]) then filled[i] == attachments[i]
                 else
                   && attachments[i].path in files
                   && filled[i] == attachments[i].(data := Some(files[attachments[i].path]))
  {
    if attachments != [] { FillFacts(attachments[..|attachments| - 1], files, total); }
  }

  // ----- what is sent ------------------------------------------------------------------------------

  /** The bytes written for an attachment: its data, or the file as it is now. None is a failed
      send. */
  function SentBytes(a: Attachment, files: Files): Option<Bytes> {
    if a.data.Some? then a.data
    else if a.path == "" then Some([])
    else if a.path in files then Some(files[a.path]) else None
  }

  /** The whole life of a payload: prepared over one state of the files, snapshotted over a
      second, and accepted for execution over a third. */
  predicate Accepted(kind: string, p: Payload, digest: Digest, snapshot: Payload, prepared: Files, snapshotted: Files,
                     checked: Files) {
    && DigestOf(kind, OnWire(p), prepared) == Ok(digest)
    && SnapshotOf(OnWire(p), snapshotted) == Ok(snapshot)
    && DigestOf(kind, snapshot, checked) == Ok(digest)
  }

  /** The bytes an attachment stands for when the operation is prepared. */
  function PreparedBytes(a: Attachment, prepared: Files): Bytes {
    if Inline(OnWireOne(a)) then InlineData(a) else if a.path in prepared then prepared[a.path] else []
  }

  /** A snapshot of one attachment differs only in its data. */
  predicate SnapshotOne(before: Attachment, after: Attachment) {
    after.path == before.path && after.name == before.name && after.contentType == before.contentType
  }

  /** An accepted mail payload keeps its shape, and its digest is over the prepared bytes. */
  lemma {:induction false} AcceptedShape(kind: string, p: Payload, digest: Digest, snapshot: Payload, prepared: Files,
                                         snapshotted: Files, checked: Files)
    requires Accepted(kind, p, digest, snapshot, prepared, snapshotted, checked) && p.Mail?
    ensures snapshot.Mail? && digest.MailDigest? && snapshot.fields == p.fields
    ensures |snapshot.attachments| == |p.attachments| == |digest.contents|
    ensures TotalBytes(digest.contents) <= MAX_OUTBOUND_ATTACHMENT_BYTES
    ensures forall i :: 0 <= i < |p.attachments| ==> SnapshotOne(p.attachments[i], snapshot.attachments[i])
  {
    var wire := OnWire(p).attachments;
    FillFacts(wire, snapshotted, InlineTotal(wire));
    DigestFacts(wire, prepared);
  }

  lemma {:induction false} AcceptedBytes(kind: string, p: Payload, digest: Digest, snapshot: Payload, prepared: Files,
                                         snapshotted: Files, checked: Files, sent: Files, i: nat)
    requires Accepted(kind, p, digest, snapshot, prepared, snapshotted, checked) && p.Mail? && i < |p.attachments|
    requires snapshot.Mail? && digest.MailDigest? && |snapshot.attachments| == |p.attachments| == |digest.contents|
    ensures digest.contents[i] == PreparedBytes(p.attachments[i], prepared)
    ensures Inline(snapshot.attachments[i]) ==> SentBytes(snapshot.attachments[i], sent) == Some(digest.contents[i])
  {
    DigestFacts(OnWire(p).attachments, prepared);
    DigestFacts(snapshot.attachments, checked);
    assert OnWire(p).attachments[i] == OnWireOne(p.attachments[i]);
  }

  /** What runs is what was prepared, whatever happens to the files: the fields are the same,
      and so are the bytes of every attachment whose snapshot was not empty; the digested total
      is within the limit. */
  lemma {:induction false} WhatRunsIsWhatWasPrepared(kind: string, p: Payload, digest: Digest, snapshot: Payload,
                                                     prepared: Files, snapshotted: Files, checked: Files, sent: Files)
    requires Accepted(kind, p, digest, snapshot, prepared, snapshotted, checked)
    ensures p.Other? ==> snapshot == p
    ensures p.Mail? ==>
      && snapshot.Mail? && digest.MailDigest? && snapshot.fields == p.fields
      && |snapshot.attachments| == |p.attachments| == |digest.contents|
      && TotalBytes(digest.contents) <= MAX_OUTBOUND_ATTACHMENT_BYTES
      && (forall i :: 0 <= i < |p.attachments| ==> SnapshotOne(p.attachments[i], snapshot.attachments[i]))
      && (forall i :: 0 <= i < |p.attachments| && Inline(snapshot.attachments[i]) ==>
            SentBytes(snapshot.attachments[i], sent) == Some(PreparedBytes(p.attachments[i], prepared)))
  {
    if p.Mail? {
      AcceptedShape(kind, p, digest, snapshot, prepared, snapshotted, checked);
      forall i | 0 <= i < |p.attachments| && Inline(snapshot.attachments[i])
        ensures SentBytes(snapshot.attachments[i], sent) == Some(PreparedBytes(p.attachments[i], prepared))
      {
        AcceptedBytes(kind, p, digest, snapshot, prepared, snapshotted, checked, sent, i);
      }
    }
  }

  /** Some file-backed attachment was empty when it was snapshotted. */
  ghost predicate EmptySnapshot(snapshot: Payload) {
    snapshot.Mail? && exists i :: 0 <= i < |snapshot.attachments| && !Inline(snapshot.attachments[i])
  }

  /** Every attachment goes out with the bytes it was prepared with. */
  ghost predicate SendsPrepared(p: Payload, prepared: Files, snapshot: Payload, sent: Files) {
    p.Mail? ==> snapshot.Mail? && |snapshot.attachments| == |p.attachments|
                && forall i :: 0 <= i < |p.attachments| ==>
                     SentBytes(snapshot.attachments[i], sent) == Some(PreparedBytes(p.attachments[i], prepared))
  }

  lemma {:induction false} FullSnapshotSendsPrepared(kind: string, p: Payload, digest: Digest, snapshot: Payload,
                                                     prepared: Files, snapshotted: Files, checked: Files, sent: Files)
    requires Accepted(kind, p, digest, snapshot, prepared, snapshotted, checked) && !EmptySnapshot(snapshot)
    ensures SendsPrepared(p, prepared, snapshot, sent)
  {
    WhatRunsIsWhatWasPrepared(kind, p, digest, snapshot, prepared, snapshotted, checked, sent);
  }

  /** With an empty snapshot some later state of the files breaks the promise. */
  lemma {:induction false} EmptySnapshotSendsOther(kind: string, p: Payload, digest: Digest, snapshot: Payload,
                                                   prepared: Files, snapshotted: Files, checked: Files)
    returns (sent: Files)
    requires Accepted(kind, p, digest, snapshot, prepared, snapshotted, checked) && EmptySnapshot(snapshot)
    ensures !SendsPrepared(p, prepared, snapshot, sent)
  {
    var i :| 0 <= i < |snapshot.attachments| && !Inline(snapshot.attachments[i]);
    if p.Mail? { AcceptedShape(kind, p, digest, snapshot, prepared, snapshotted, checked); }
    var bytes := PreparedBytes(p.attachments[i], prepared);
    sent := map[snapshot.attachments[i].path := bytes + [0]];
    assert |bytes + [0]| != |bytes|;
    assert SentBytes(snapshot.attachments[i], sent) == Some(bytes + [0]);
  }

  /** The guarantee covers all attachments, for every later state of the files, if and only if
      no file was empty when it was snapshotted. An empty snapshot is lost in the encoding and
      the file is read again. */
  lemma {:induction false} SameBytesExactly(kind: string, p: Payload, digest: Digest, snapshot: Payload,
                                            prepared: Files, snapshotted: Files, checked: Files)
    requires Accepted(kind, p, digest, snapshot, prepared, snapshotted, checked)
    ensures (forall sent: Files :: SendsPrepared(p, prepared, snapshot, sent)) <==> !EmptySnapshot(snapshot)
  {
    if EmptySnapshot(snapshot) {
      var sent := EmptySnapshotSendsOther(kind, p, digest, snapshot, prepared, snapshotted, checked);
    } else {
      forall sent: Files ensures SendsPrepared(p, prepared, snapshot, sent) {
        FullSnapshotSendsPrepared(kind, p, digest, snapshot, prepared, snapshotted, checked, sent);
      }
    }
  }

  lemma {:induction false} EmptyDigested(a: Attachment, files: Files)
    requires Contents(a, files, MAX_OUTBOUND_ATTACHMENT_BYTES) == Ok([])
    ensures DigestedContents([a], files) == Ok([[]])
  {
    var none: seq<Bytes>, empty: Bytes := [], [];
    assert none + [empty] == [empty];
    TotalAppend(none, empty);
    assert TotalBytes(none + [empty]) == 0;
    assert [a][..|[a]| - 1] == [];
    assert DigestedContents([a][..|[a]| - 1], files) == Ok(none);
  }

  lemma {:induction false} EmptySnapshotted(a: Attachment, files: Files)
    requires !Inline(a) && a.path in files && files[a.path] == []
    ensures SnapshotOf(Mail("", [a]), files) == Ok(Mail("", [a]))
  {
    var none: seq<Attachment> := [];
    var filled := a.(data := Some([]));
    assert [a][..0] == [] && [a][..1] == [a] && none + [filled] == [filled];
    assert FillFrom(none, files, 0) == Ok(Filled(none, 0));
    FillNext([a], 0, files, 0, Filled(none, 0));
    assert InlineTotal([a]) == 0;
    assert OnWire(Mail("", [filled])).attachments == [a];
  }

  /** A file that is empty at every check and filled before sending is sent with its new bytes. */
  lemma {:induction false} EmptyFileSentLater(path: string, later: Bytes)
    requires path != "" && later != []
    ensures var p := Mail("", [Attachment(path, "", "", None)]);
            var digest := MailDigest("mail.send", "", p.attachments, [[]]);
            Accepted("mail.send", p, digest, p, map[path := []], map[path := []], map[path := []])
            && SentBytes(p.attachments[0], map[path := later]) == Some(later)
  {
    var a := Attachment(path, "", "", None);
    EmptyDigested(a, map[path := []]);
    EmptySnapshotted(a, map[path := []]);
    assert OnWire(Mail("", [a])).attachments == [a];
    assert CanonicalAll([a]) == [a];
  }
}
