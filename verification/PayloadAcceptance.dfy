/** When a payload is digested, snapshotted and accepted for execution, said of attachments and
    files alone. */
module PayloadAcceptance {
  import opened Wrappers
  import opened PreparedPayload

  /** An attachment that names a file and has no data of its own; empty data is none. */
  predicate FromFile(a: Attachment) { a.path != "" && (a.data.None? || a.data.value == []) }

  /** The bytes an attachment stands for while the files are these. */
  function BytesNow(a: Attachment, files: Files): Bytes {
    if FromFile(a) then if a.path in files then files[a.path] else []
    else if a.data.Some? then a.data.value else []
  }

  function AllBytes(attachments: seq<Attachment>, files: Files): nat {
    if attachments == [] then 0
    else AllBytes(attachments[..|attachments| - 1], files) + |BytesNow(attachments[|attachments| - 1], files)|
  }

  /** Every file is there, and all attachments together are within 25 MiB. */
  ghost predicate Fits(attachments: seq<Attachment>, files: Files) {
    && (forall a :: a in attachments && FromFile(a) ==> a.path in files)
    && AllBytes(attachments, files) <= 25 * 1024 * 1024
  }

  ghost predicate OnWireAll(attachments: seq<Attachment>) {
    forall a :: a in attachments ==> a.data != Some([])
  }

  lemma {:induction false} FitsPrefix(attachments: seq<Attachment>, files: Files)
    requires attachments != []
    ensures var before, last := attachments[..|attachments| - 1], attachments[|attachments| - 1];
            Fits(attachments, files)
            <==> Fits(before, files) && (FromFile(last) ==> last.path in files)
                 && AllBytes(before, files) + |BytesNow(last, files)| <= 25 * 1024 * 1024
  {
    var before, last := attachments[..|attachments| - 1], attachments[|attachments| - 1];
    assert attachments == before + [last];
  }

  lemma {:induction false} ContentsExactly(a: Attachment, files: Files)
    requires a.data != Some([])
    ensures var contents := Contents(a, files, 25 * 1024 * 1024);
            && (contents.Ok? ==> contents.value == BytesNow(a, files))
            && (contents.Err? <==> FromFile(a)
                                   && (a.path !in files || |BytesNow(a, files)| > 25 * 1024 * 1024))
  {
  }

  /** What is digested is the bytes the attachments stand for. */
  lemma {:induction false} DigestedAreBytes(attachments: seq<Attachment>, files: Files)
    requires OnWireAll(attachments) && DigestedContents(attachments, files).Ok?
    ensures var contents := DigestedContents(attachments, files).value;
            && |contents| == |attachments| && TotalBytes(contents) == AllBytes(attachments, files)
            && forall i :: 0 <= i < |contents| ==> contents[i] == BytesNow(attachments[i], files)
  {
    if attachments != [] {
      var before, last := attachments[..|attachments| - 1], attachments[|attachments| - 1];
      DigestedAreBytes(before, files);
      ContentsExactly(last, files);
      TotalAppend(DigestedContents(before, files).value, BytesNow(last, files));
    }
  }

  /** The digest fails exactly when a file is missing or the total is too large. */
  lemma {:induction false} DigestedExactly(attachments: seq<Attachment>, files: Files)
    requires OnWireAll(attachments)
    ensures DigestedContents(attachments, files).Ok? <==> Fits(attachments, files)
  {
    if attachments != [] {
      var before, last := attachments[..|attachments| - 1], attachments[|attachments| - 1];
      DigestedExactly(before, files);
      FitsPrefix(attachments, files);
      ContentsExactly(last, files);
      if DigestedContents(before, files).Ok? {
        DigestedAreBytes(before, files);
        TotalAppend(DigestedContents(before, files).value, BytesNow(last, files));
      }
    }
  }

  lemma {:induction false} DigestedFacts(attachments: seq<Attachment>, files: Files)
    requires OnWireAll(attachments)
    ensures var digested := DigestedContents(attachments, files);
            && (digested.Ok? <==> Fits(attachments, files))
            && (digested.Ok? ==>
                  && |digested.value| == |attachments| && TotalBytes(digested.value) == AllBytes(attachments, files)
                  && forall i :: 0 <= i < |attachments| ==> digested.value[i] == BytesNow(attachments[i], files))
  {
    DigestedExactly(attachments, files);
    if Fits(attachments, files) { DigestedAreBytes(attachments, files); }
  }

  /** The inline part of the total. */
  function InlineBytes(attachments: seq<Attachment>): nat { AllBytes(attachments, map[]) }

  lemma {:induction false} InlineTotalMeans(attachments: seq<Attachment>)
    requires OnWireAll(attachments)
    ensures InlineTotal(attachments) == InlineBytes(attachments)
  {
    if attachments != [] {
      var before, last := attachments[..|attachments| - 1], attachments[|attachments| - 1];
      assert attachments == before + [last];
      InlineTotalMeans(before);
    }
  }

  /** The bytes of the files alone. */
  function FileBytes(attachments: seq<Attachment>, files: Files): nat {
    if attachments == [] then 0
    else
      var last := attachments[|attachments| - 1];
      FileBytes(attachments[..|attachments| - 1], files) + if FromFile(last) then |BytesNow(last, files)| else 0
  }

  lemma {:induction false} InlineAndFiles(attachments: seq<Attachment>, files: Files)
    ensures AllBytes(attachments, files) == InlineBytes(attachments) + FileBytes(attachments, files)
  {
    if attachments != [] { InlineAndFiles(attachments[..|attachments| - 1], files); }
  }

  /** Reading the files one after the other, each within what is left, fails exactly when one is
      missing or all of them do not fit. */
  lemma {:induction false} FilledExactly(attachments: seq<Attachment>, files: Files, total: nat)
    requires OnWireAll(attachments) && total <= 25 * 1024 * 1024
    ensures FillFrom(attachments, files, total).Ok?
            <==> (forall a :: a in attachments && FromFile(a) ==> a.path in files)
                 && total + FileBytes(attachments, files) <= 25 * 1024 * 1024
    ensures FillFrom(attachments, files, total).Ok? ==>
              FillFrom(attachments, files, total).value.total == total + FileBytes(attachments, files)
  {
    if attachments != [] {
      var before, last := attachments[..|attachments| - 1], attachments[|attachments| - 1];
      assert attachments == before + [last];
      FilledExactly(before, files, total);
    }
  }

  /** The same attachment with what its file held, unless that was nothing. */
  function Snapped(a: Attachment, files: Files): Attachment {
    if FromFile(a) && BytesNow(a, files) != [] then a.(data := Some(BytesNow(a, files))) else a
  }

  /** A snapshot is taken exactly when the payload would be digested, and has what the files held. */
  lemma {:induction false} SnapshotExactly(fields: string, attachments: seq<Attachment>, files: Files)
    requires OnWireAll(attachments)
    ensures SnapshotOf(Mail(fields, attachments), files).Ok? <==> Fits(attachments, files)
    ensures SnapshotOf(Mail(fields, attachments), files).Ok? ==>
              var snapshot := SnapshotOf(Mail(fields, attachments), files).value;
              && snapshot.Mail? && snapshot.fields == fields && |snapshot.attachments| == |attachments|
              && forall i :: 0 <= i < |attachments| ==> snapshot.attachments[i] == Snapped(attachments[i], files)
  {
    InlineTotalMeans(attachments);
    InlineAndFiles(attachments, files);
    if InlineTotal(attachments) <= 25 * 1024 * 1024 {
      FilledExactly(attachments, files, InlineTotal(attachments));
      if FillFrom(attachments, files, InlineTotal(attachments)).Ok? {
        FillFacts(attachments, files, InlineTotal(attachments));
      }
    }
  }

  lemma {:induction false} WireIsOnWire(p: Payload)
    requires p.Mail?
    ensures OnWire(p).Mail? && OnWire(p).fields == p.fields && |OnWire(p).attachments| == |p.attachments|
    ensures OnWireAll(OnWire(p).attachments)
    ensures forall i :: 0 <= i < |p.attachments| ==>
              && OnWire(p).attachments[i].path == p.attachments[i].path
              && OnWire(p).attachments[i].name == p.attachments[i].name
              && OnWire(p).attachments[i].contentType == p.attachments[i].contentType
              && FromFile(OnWire(p).attachments[i]) == FromFile(p.attachments[i])
              && forall files :: BytesNow(OnWire(p).attachments[i], files) == BytesNow(p.attachments[i], files)
  {
  }

  lemma {:induction false} SameBytesSameTotal(a: seq<Attachment>, files: Files, b: seq<Attachment>, others: Files)
    requires |a| == |b| && forall i :: 0 <= i < |a| ==> BytesNow(a[i], files) == BytesNow(b[i], others)
    ensures AllBytes(a, files) == AllBytes(b, others)
  {
    if a != [] { SameBytesSameTotal(a[..|a| - 1], files, b[..|b| - 1], others); }
  }

  // ----- acceptance -------------------------------------------------------------------------------

  /** The file was not changed as far as the execution sees: its snapshot has the prepared bytes,
      or was empty and the file has them when it is digested again. */
  predicate FileKept(a: Attachment, prepared: Files, snapshotted: Files, checked: Files) {
    a.path in prepared && a.path in snapshotted
    && if snapshotted[a.path] != [] then snapshotted[a.path] == prepared[a.path]
       else a.path in checked && checked[a.path] == prepared[a.path]
  }

  /** A payload over the files of its preparation, and its snapshot at execution. */
  ghost predicate Prepared(kind: string, p: Payload, digest: Digest, snapshot: Payload, prepared: Files,
                           snapshotted: Files) {
    DigestOf(kind, OnWire(p), prepared) == Ok(digest) && SnapshotOf(OnWire(p), snapshotted) == Ok(snapshot)
  }

  lemma {:induction false} PreparedFacts(kind: string, p: Payload, digest: Digest, snapshot: Payload,
                                         prepared: Files, snapshotted: Files)
    requires Prepared(kind, p, digest, snapshot, prepared, snapshotted) && p.Mail?
    ensures Fits(OnWire(p).attachments, prepared) && Fits(OnWire(p).attachments, snapshotted)
    ensures snapshot.Mail? && snapshot.fields == p.fields && |snapshot.attachments| == |p.attachments|
    ensures OnWireAll(snapshot.attachments)
    ensures forall i :: 0 <= i < |p.attachments| ==>
              snapshot.attachments[i] == Snapped(OnWire(p).attachments[i], snapshotted)
    ensures CanonicalAll(snapshot.attachments) == CanonicalAll(OnWire(p).attachments)
  {
    WireIsOnWire(p);
    DigestedFacts(OnWire(p).attachments, prepared);
    SnapshotExactly(p.fields, OnWire(p).attachments, snapshotted);
  }

  lemma {:induction false} KeptIsPointwise(kind: string, p: Payload, digest: Digest, snapshot: Payload,
                                           prepared: Files, snapshotted: Files, checked: Files, i: nat)
    requires Prepared(kind, p, digest, snapshot, prepared, snapshotted) && p.Mail? && i < |p.attachments|
    ensures snapshot.Mail? && |snapshot.attachments| == |p.attachments|
    ensures (FromFile(snapshot.attachments[i]) ==> snapshot.attachments[i].path in checked)
            && BytesNow(snapshot.attachments[i], checked) == BytesNow(OnWire(p).attachments[i], prepared)
            <==> (FromFile(p.attachments[i]) ==> FileKept(p.attachments[i], prepared, snapshotted, checked))
  {
    var a := OnWire(p).attachments[i];
    PreparedFacts(kind, p, digest, snapshot, prepared, snapshotted);
    WireIsOnWire(p);
    assert a in OnWire(p).attachments;
  }

  lemma {:induction false} AcceptedDigest(kind: string, p: Payload, digest: Digest, snapshot: Payload,
                                          prepared: Files, snapshotted: Files, checked: Files)
    requires Prepared(kind, p, digest, snapshot, prepared, snapshotted) && p.Mail?
    ensures snapshot.Mail? && |snapshot.attachments| == |p.attachments|
    ensures DigestOf(kind, snapshot, checked) == Ok(digest)
            <==> Fits(snapshot.attachments, checked)
                 && forall i :: 0 <= i < |p.attachments| ==>
                      BytesNow(snapshot.attachments[i], checked) == BytesNow(OnWire(p).attachments[i], prepared)
  {
    PreparedFacts(kind, p, digest, snapshot, prepared, snapshotted);
    WireIsOnWire(p);
    DigestedFacts(OnWire(p).attachments, prepared);
    DigestedFacts(snapshot.attachments, checked);
    assert digest == MailDigest(kind, p.fields, CanonicalAll(OnWire(p).attachments), digest.contents);
    if Fits(snapshot.attachments, checked) {
      var contents := DigestedContents(snapshot.attachments, checked).value;
      assert (contents == digest.contents)
             <==> forall i :: 0 <= i < |p.attachments| ==> contents[i] == digest.contents[i];
    }
  }

  /** No file of the payload was changed as far as the execution sees. */
  ghost predicate FilesKept(p: Payload, prepared: Files, snapshotted: Files, checked: Files) {
    p.Mail? ==> forall i :: 0 <= i < |p.attachments| && FromFile(p.attachments[i]) ==>
                  FileKept(p.attachments[i], prepared, snapshotted, checked)
  }

  /** The snapshot can be read and has the prepared bytes, attachment by attachment. */
  ghost predicate SameNow(p: Payload, snapshot: Payload, prepared: Files, checked: Files) {
    && p.Mail? && snapshot.Mail? && |snapshot.attachments| == |p.attachments|
    && forall i :: 0 <= i < |p.attachments| ==>
         && (FromFile(snapshot.attachments[i]) ==> snapshot.attachments[i].path in checked)
         && BytesNow(snapshot.attachments[i], checked) == BytesNow(OnWire(p).attachments[i], prepared)
  }

  lemma {:induction false} SameNowExactly(kind: string, p: Payload, digest: Digest, snapshot: Payload,
                                          prepared: Files, snapshotted: Files, checked: Files)
    requires Prepared(kind, p, digest, snapshot, prepared, snapshotted) && p.Mail?
    ensures SameNow(p, snapshot, prepared, checked) <==> FilesKept(p, prepared, snapshotted, checked)
  {
    PreparedFacts(kind, p, digest, snapshot, prepared, snapshotted);
    forall i | 0 <= i < |p.attachments|
      ensures (FromFile(snapshot.attachments[i]) ==> snapshot.attachments[i].path in checked)
              && BytesNow(snapshot.attachments[i], checked) == BytesNow(OnWire(p).attachments[i], prepared)
              <==> (FromFile(p.attachments[i]) ==> FileKept(p.attachments[i], prepared, snapshotted, checked))
    {
      KeptIsPointwise(kind, p, digest, snapshot, prepared, snapshotted, checked, i);
    }
  }

  lemma {:induction false} SameNowFits(kind: string, p: Payload, digest: Digest, snapshot: Payload,
                                       prepared: Files, snapshotted: Files, checked: Files)
    requires Prepared(kind, p, digest, snapshot, prepared, snapshotted) && p.Mail?
    requires SameNow(p, snapshot, prepared, checked)
    ensures Fits(snapshot.attachments, checked)
  {
    PreparedFacts(kind, p, digest, snapshot, prepared, snapshotted);
    SameBytesSameTotal(snapshot.attachments, checked, OnWire(p).attachments, prepared);
  }

  /** An operation is accepted for execution exactly when no attachment file was changed since it
      was prepared, as far as the execution sees. Other payloads always are. */
  lemma {:induction false} AcceptedExactly(kind: string, p: Payload, digest: Digest, snapshot: Payload,
                                           prepared: Files, snapshotted: Files, checked: Files)
    requires Prepared(kind, p, digest, snapshot, prepared, snapshotted)
    ensures Accepted(kind, p, digest, snapshot, prepared, snapshotted, checked)
            <==> FilesKept(p, prepared, snapshotted, checked)
  {
    if p.Mail? {
      AcceptedDigest(kind, p, digest, snapshot, prepared, snapshotted, checked);
      SameNowExactly(kind, p, digest, snapshot, prepared, snapshotted, checked);
      if SameNow(p, snapshot, prepared, checked) {
        SameNowFits(kind, p, digest, snapshot, prepared, snapshotted, checked);
      }
    }
  }

  lemma {:induction false} FitsOnWire(p: Payload, files: Files)
    requires p.Mail?
    ensures OnWire(p).Mail? && (Fits(OnWire(p).attachments, files) <==> Fits(p.attachments, files))
  {
    WireIsOnWire(p);
    SameBytesSameTotal(OnWire(p).attachments, files, p.attachments, files);
    SameFiles(p, files);
  }

  /** With unchanged files a mail within the limit is digested, snapshotted and accepted; one
      with a missing file, or beyond the limit, is refused at preparation. */
  lemma {:induction false} UnchangedIsAccepted(kind: string, p: Payload, files: Files)
    requires p.Mail?
    ensures DigestOf(kind, OnWire(p), files).Ok? <==> Fits(p.attachments, files)
    ensures Fits(p.attachments, files) ==>
              var digest, snapshot := DigestOf(kind, OnWire(p), files), SnapshotOf(OnWire(p), files);
              digest.Ok? && snapshot.Ok? && Accepted(kind, p, digest.value, snapshot.value, files, files, files)
  {
    WireIsOnWire(p);
    FitsOnWire(p, files);
    DigestedFacts(OnWire(p).attachments, files);
    SnapshotExactly(p.fields, OnWire(p).attachments, files);
    if Fits(p.attachments, files) {
      AcceptedExactly(kind, p, DigestOf(kind, OnWire(p), files).value, SnapshotOf(OnWire(p), files).value, files, files,
                      files);
    }
  }

  lemma {:induction false} SameFiles(p: Payload, files: Files)
    requires p.Mail?
    ensures OnWire(p).Mail?
    ensures (forall a :: a in OnWire(p).attachments && FromFile(a) ==> a.path in files)
            <==> (forall a :: a in p.attachments && FromFile(a) ==> a.path in files)
  {
    WireIsOnWire(p);
    var wire := OnWire(p).attachments;
    forall a | a in p.attachments
      ensures (forall x :: x in wire && FromFile(x) ==> x.path in files) && FromFile(a) ==> a.path in files
    {
      var i :| 0 <= i < |p.attachments| && p.attachments[i] == a;
      assert wire[i] in wire;
    }
    forall x | x in wire
      ensures (forall a :: a in p.attachments && FromFile(a) ==> a.path in files) && FromFile(x) ==> x.path in files
    {
      var i :| 0 <= i < |wire| && wire[i] == x;
      assert p.attachments[i] in p.attachments;
    }
  }

  /** A digest stands for everything that is sent: kind, fields, and each attachment's path, name,
      type and bytes. */
  lemma {:induction false} DigestBinds(kind: string, p: Payload, files: Files, other: string, q: Payload, later: Files)
    requires p.Mail? ==> OnWireAll(p.attachments)
    requires q.Mail? ==> OnWireAll(q.attachments)
    requires DigestOf(kind, p, files).Ok? && DigestOf(kind, p, files) == DigestOf(other, q, later)
    ensures kind == other && (p.Other? ==> q == p)
    ensures p.Mail? ==>
              && q.Mail? && q.fields == p.fields && |q.attachments| == |p.attachments|
              && forall i :: 0 <= i < |p.attachments| ==>
                   var a, b := p.attachments[i], q.attachments[i];
                   && a.path == b.path && a.name == b.name && a.contentType == b.contentType
                   && BytesNow(a, files) == BytesNow(b, later)
  {
    if p.Mail? && q.Mail? {
      DigestedFacts(p.attachments, files);
      DigestedFacts(q.attachments, later);
      forall i | 0 <= i < |p.attachments|
        ensures |q.attachments| == |p.attachments|
        ensures var a, b := p.attachments[i], q.attachments[i];
                a.path == b.path && a.name == b.name && a.contentType == b.contentType
      {
        assert CanonicalAll(p.attachments)[i] == CanonicalAll(q.attachments)[i];
      }
    }
  }
}
