/** What becomes of a scoped cache entry that vanishes between two pages of a live traversal. */
module CacheGaps {
  import opened Wrappers
  import opened Ordering
  import opened MailSearch
  import opened PageMerge
  import opened Pagination
  import opened Traversal
  import opened HiddenMail
  import opened OfflineCache
  import opened CachedPages
  import opened CachedTraversal

  /** The same stretch, seen from the messages after the first `from`. */
  lemma {:induction false} LaterStretch(r: Reading, all: seq<Message>, from: nat, uidValidity: nat, uidNext: nat)
    requires Reads(r, all, uidValidity, uidNext) && 0 < from <= r.shown
    ensures NextStretch(r.o, r.result, all[from..], r.shown - from, r.more - from, r.size, uidValidity, uidNext)
  {
    assert all[from..][r.shown - from..] == all[r.shown..];
  }

  /** The entry written right after the gap: a beginning of what was left then, marked. */
  lemma {:induction false} FirstAfterGap(o: Options, result: Entry, rest: seq<Message>, more: nat, size: nat,
                                         uidValidity: nat, uidNext: nat)
    requires NextStretch(o, result, rest, 0, more, size, uidValidity, uidNext) && o.cursor.Some?
    ensures Covers(Some(Stored(None, o, result)), rest, more, uidValidity, uidNext) && Stored(None, o, result).hasMore
  {
    assert rest[0..] == rest;
  }

  /** The entry covers what was shown after the first `from` messages, of all after them. */
  ghost predicate CoversSince(entry: Option<Entry>, all: seq<Message>, from: nat, shown: nat, uidValidity: nat,
                              uidNext: nat) {
    from <= |all| && from <= shown && Covers(entry, all[from..], shown - from, uidValidity, uidNext)
  }

  /** One page at or after the gap. */
  lemma {:induction false} PageSince(r: Reading, entry: Option<Entry>, all: seq<Message>, from: nat, atGap: bool,
                                     uidValidity: nat, uidNext: nat)
    requires Reads(r, all, uidValidity, uidNext) && 0 < from
    requires if atGap then entry == None && r.shown == from
             else CoversSince(entry, all, from, r.shown, uidValidity, uidNext)
    ensures CoversSince(Some(Stored(entry, r.o, r.result)), all, from, r.more, uidValidity, uidNext)
    ensures Stored(entry, r.o, r.result).hasMore == (atGap || r.result.hasMore)
  {
    LaterStretch(r, all, from, uidValidity, uidNext);
    if atGap {
      FirstAfterGap(r.o, r.result, all[from..], r.more - from, r.size, uidValidity, uidNext);
    } else {
      StoredCovers(entry, r.o, r.result, all[from..], r.shown - from, r.more - from, r.size, uidValidity, uidNext);
    }
  }

  /** After a gap the entry covers what was shown since, of what was left then; the mark lasts
      only until the next page. */
  lemma {:induction false} SinceGap(readings: seq<Reading>, gap: nat, n: nat, all: seq<Message>, uidValidity: nat,
                                    uidNext: nat)
    requires Chain(readings, all, uidValidity, uidNext) && gap < n <= |readings| && readings[gap].shown > 0
    ensures var entry := EntryOver(readings, gap, n, None);
            && CoversSince(entry, all, readings[gap].shown, readings[n - 1].more, uidValidity, uidNext)
            && entry.value.hasMore == (n - 1 == gap || readings[n - 1].result.hasMore)
  {
    assert Links(readings, n - 1, all, uidValidity, uidNext);
    if n - 1 > gap {
      SinceGap(readings, gap, n - 1, all, uidValidity, uidNext);
    }
    var before := EntryOver(readings, gap, n - 1, None);
    PageSince(readings[n - 1], before, all, readings[gap].shown, n - 1 == gap, uidValidity, uidNext);
  }

  /** What a gap leaves when `out` messages were out by then: an entry that is marked if and only
      if some were and one page followed, and otherwise holds exactly what was left; which is
      all of it if and only if none were. */
  ghost predicate LeftByGap(entry: Option<Entry>, all: seq<Message>, out: nat, onePage: bool) {
    && entry.Some? && out <= |all| && (entry.value.hasMore <==> out > 0 && onePage)
    && (!entry.value.hasMore ==>
          entry.value.messages == all[out..] && (entry.value.messages == all <==> out == 0))
  }

  /** The final state of an entry that vanished once, over one connection's pages. */
  lemma {:induction false} FinalEntry(readings: seq<Reading>, gap: nat, n: nat, all: seq<Message>, uidValidity: nat,
                                      uidNext: nat)
    requires Chain(readings, all, uidValidity, uidNext)
    requires gap < n <= |readings| && !readings[n - 1].result.hasMore
    ensures LeftByGap(EntryOver(readings, gap, n, None), all, readings[gap].shown, gap == n - 1)
  {
    assert Links(readings, gap, all, uidValidity, uidNext);
    if readings[gap].shown == 0 {
      CacheCovers(readings, gap, n, None, all, uidValidity, uidNext);
    } else {
      SinceGap(readings, gap, n, all, uidValidity, uidNext);
    }
  }

  /** Exactly when a gap misleads. An entry that vanishes just before call `gap` of a finished
      traversal is left marked incomplete if and only if some of the connection's messages were
      out by then and that call was the last; unmarked, it holds exactly what was left then. So
      it passes for complete without its first messages whenever messages were out and at least
      two pages followed. */
  lemma {:induction false} GapMisleadsExactly(s: Scope, w: World, calls: seq<Call>, states: seq<Progress>, gap: nat,
                                              c: int, uidValidity: nat)
    requires Ran(s, w, calls, states) && DatesFollow(s, w) && c in s.connections
    requires gap < |calls| && !states[|calls|].more
    ensures LeftByGap(EntryOver(Readings(s, calls, states, c, uidValidity), gap, |calls|, None), AllOf(s, w, c),
                      ShownOf(states[gap], c), gap == |calls| - 1)
  {
    var readings := Readings(s, calls, states, c, uidValidity);
    assert Chain(readings, AllOf(s, w, c), uidValidity, w.uidNext[c]) by {
      ReadingsChain(s, w, calls, states, c, uidValidity);
    }
    assert !readings[|calls| - 1].result.hasMore by { LastCallIsFinal(s, w, calls, states, c, uidValidity); }
    assert readings[gap].shown == ShownOf(states[gap], c) by { ShownBetween(s, calls, states, gap, c, uidValidity); }
    FinalEntry(readings, gap, |calls|, AllOf(s, w, c), uidValidity, w.uidNext[c]);
  }

  // ----- at an input ------------------------------------------------------------------------------

  const FIRST: Message := Message(0, 3, Stamp(3 * 3600, 0), true)

  const SECOND: Message := Message(0, 2, Stamp(2 * 3600, 0), true)

  const THIRD: Message := Message(0, 1, Stamp(1 * 3600, 0), true)

  const THREE_MESSAGES: World := World(map[0 := [THIRD, SECOND, FIRST]], map[0 := 4])

  lemma {:induction false} ThreeInOrder(w: World)
    requires w == THREE_MESSAGES
    ensures ValidScope(ONE_MAILBOX) && ValidWorld(ONE_MAILBOX, w) && DatesFollow(ONE_MAILBOX, w)
    ensures Rest(ONE_MAILBOX, w, map[]) == [FIRST, SECOND, THIRD]
  {
    ThreeAreWanted(ONE_MAILBOX, w);
    AllInReachAtStart(ONE_MAILBOX, w);
    InReachIsWanted(ONE_MAILBOX, w, map[]);
    OneZoneFollows(ONE_MAILBOX, w, map[0 := 0]);
    StrictUnique(Rest(ONE_MAILBOX, w, map[]), [FIRST, SECOND, THIRD], ByOrder);
  }

  lemma {:induction false} ThreeAreWanted(s: Scope, w: World)
    requires s == ONE_MAILBOX && w == THREE_MESSAGES
    ensures ValidWorld(s, w) && forall m :: IsWanted(s, w, m) <==> m in [FIRST, SECOND, THIRD]
    ensures Strict([FIRST, SECOND, THIRD], ByOrder)
  {
  }

  /** A page of one message. */
  lemma {:induction false} SingleTurn(s: Scope, w: World, p: Progress)
    requires ValidScope(s) && ValidWorld(s, w) && DatesFollow(s, w) && Rest(s, w, p.pos) != []
    ensures var rest, next := Rest(s, w, p.pos), Turn(s, p, Call(w, 1));
            && next.emitted == p.emitted + [rest[0]] && Rest(s, w, next.pos) == rest[1..]
            && (next.more <==> |rest| > 1)
  {
    PageBegins(s, p, Call(w, 1));
    PageHidesNothing(s, w, p.pos, 1);
    assert Rest(s, w, p.pos)[..1] == [Rest(s, w, p.pos)[0]];
  }

  /** Pages of one message each. */
  ghost predicate Singles(s: Scope, w: World, calls: seq<Call>) {
    ValidScope(s) && ValidWorld(s, w) && forall i :: 0 <= i < |calls| ==> calls[i] == Call(w, 1)
  }

  lemma {:induction false} NextOf(all: seq<Message>, n: nat)
    requires 0 < n <= |all|
    ensures all[..n] == all[..n - 1] + [all[n - 1..][0]] && all[n - 1..][1..] == all[n..] && all[n - 1..] != []
  {
  }

  /** Pages of one message show one message each, and the last comes without a cursor. */
  lemma {:induction false} SinglePages(s: Scope, w: World, calls: seq<Call>, n: nat)
    requires Singles(s, w, calls) && DatesFollow(s, w) && n <= |calls| && n <= |Rest(s, w, map[])|
    ensures AllValid(s, calls) && Still(calls, w)
    ensures var p, all := After(s, calls, n), Rest(s, w, map[]);
            p.emitted == all[..n] && Rest(s, w, p.pos) == all[n..] && (n > 0 ==> (p.more <==> n < |all|))
    decreases n
  {
    var all := Rest(s, w, map[]);
    if n == 0 {
      assert all[0..] == all;
    } else {
      SinglePages(s, w, calls, n - 1);
      SingleTurn(s, w, After(s, calls, n - 1));
      NextOf(all, n);
    }
  }

  lemma {:induction false} SinglePagesFinish(s: Scope, w: World, calls: seq<Call>)
    requires Singles(s, w, calls) && DatesFollow(s, w) && |calls| == |Rest(s, w, map[])| > 0
    ensures AllValid(s, calls) && Finished(s, w, calls)
  {
    SinglePages(s, w, calls, |calls|);
    forall n | 0 < n < |calls| ensures FollowsAt(s, calls, n) {
      SinglePages(s, w, calls, n);
      Unchanged(s, w, After(s, calls, n).pos);
    }
  }

  /** Pages of one message each, and an entry lost after the first: at the end it passes for
      complete, without the connection's first message. */
  lemma {:induction false} GapLosesFirst(s: Scope, w: World, calls: seq<Call>, c: int, uidValidity: nat)
    requires Singles(s, w, calls) && DatesFollow(s, w) && s.connections == [c]
    requires |calls| == |Rest(s, w, map[])| > 2
    ensures AllValid(s, calls) && Finished(s, w, calls)
    ensures var entry := EntryOver(Readings(s, calls, States(s, calls), c, uidValidity), 1, |calls|, None);
            entry.Some? && !entry.value.hasMore && entry.value.messages == Rest(s, w, map[])[1..]
  {
    var all := Rest(s, w, map[]);
    SinglePagesFinish(s, w, calls);
    SinglePages(s, w, calls, 1);
    AllOfOne(s, w, c, all);
    AllOfOne(s, w, c, all[..1]);
    FinishedRan(s, w, calls);
    StateAt(s, calls, 1);
    GapMisleadsExactly(s, w, calls, States(s, calls), 1, c, uidValidity);
  }

  lemma {:induction false} AllOfOne(s: Scope, w: World, c: int, messages: seq<Message>)
    requires ValidScope(s) && ValidWorld(s, w) && s.connections == [c]
    requires forall m :: m in messages ==> m in Rest(s, w, map[])
    ensures Filter(messages, OfConnection(c)) == messages
  {
    RestFacts(s, w, map[]);
    if messages != [] {
      assert messages[0] in messages;
      AllOfOne(s, w, c, messages[1..]);
    }
  }

  /** Three messages, and three pages of one message. */
  lemma {:induction false} GapLosesFirstOfThree(w: World, calls: seq<Call>)
    requires w == THREE_MESSAGES && calls == [Call(w, 1), Call(w, 1), Call(w, 1)]
    ensures ValidWorld(ONE_MAILBOX, w) && Finished(ONE_MAILBOX, w, calls)
    ensures Rest(ONE_MAILBOX, w, map[]) == [FIRST, SECOND, THIRD]
    ensures var entry := EntryOver(Readings(ONE_MAILBOX, calls, States(ONE_MAILBOX, calls), 0, 1), 1, 3, None);
            entry.Some? && !entry.value.hasMore && entry.value.messages == [SECOND, THIRD]
  {
    ThreeInOrder(w);
    GapLosesFirst(ONE_MAILBOX, w, calls, 0, 1);
  }
}
