/** Live pages fill the scoped cache: what a traversal of unchanged mailboxes leaves in it, and
    why an offline traversal shows the same when local dates follow the order. Nothing is evicted
    or expires between the pages. */
module CachedTraversal {
  import opened Wrappers
  import opened Ordering
  import opened MailSearch
  import opened PageMerge
  import opened Pagination
  import opened Traversal
  import opened HiddenMail
  import opened OfflineCache
  import opened CachedPages

  // ----- the pages of a traversal -----------------------------------------------------------------

  /** All of one connection's wanted messages, in order. */
  function AllOf(s: Scope, w: World, c: int): seq<Message>
    requires forall k :: k in s.connections ==> k in w.mailboxes
  {
    Filter(Rest(s, w, map[]), OfConnection(c))
  }

  /** What a live page reads from one connection. */
  function ReadOf(s: Scope, call: Call, pos: Position, c: int): seq<Message>
    requires ValidCall(s, call)
  {
    Take(Filter(Rest(s, call.world, pos), OfConnection(c)), call.size + 1)
  }

  /** And what it stores. */
  function LiveResult(s: Scope, call: Call, pos: Position, c: int, uidValidity: nat): Entry
    requires ValidCall(s, call) && c in s.connections
  {
    Entry(ReadOf(s, call, pos, c), uidValidity, call.world.uidNext[c],
          |Filter(Rest(s, call.world, pos), OfConnection(c))| > call.size + 1)
  }

  /** How many of a connection's messages have been shown. */
  function ShownOf(p: Progress, c: int): nat { |Filter(p.emitted, OfConnection(c))| }

  /** What a call that goes from one state to the next reads from a connection. */
  function ReadingOf(s: Scope, p: Progress, call: Call, next: Progress, c: int, uidValidity: nat): Reading
    requires ValidCall(s, call) && c in s.connections
  {
    Reading(OptionsFor(s, p.pos, c, call.size + 1), LiveResult(s, call, p.pos, c, uidValidity),
            ShownOf(p, c), ShownOf(next, c), call.size)
  }

  function ReadingOfCall(s: Scope, calls: seq<Call>, states: seq<Progress>, c: int, uidValidity: nat): nat --> Reading {
    (i: nat) requires AllValid(s, calls) && i < |calls| && |states| == |calls| + 1 && c in s.connections =>
      ReadingOf(s, states[i], calls[i], states[i + 1], c, uidValidity)
  }

  /** A connection's pages in a traversal. */
  function Readings(s: Scope, calls: seq<Call>, states: seq<Progress>, c: int,
                    uidValidity: nat): (readings: seq<Reading>)
    requires AllValid(s, calls) && |states| == |calls| + 1 && c in s.connections
    ensures |readings| == |calls|
  {
    Tabulate(ReadingOfCall(s, calls, states, c, uidValidity), |calls|)
  }

  lemma {:induction false} ReadingAt(s: Scope, calls: seq<Call>, states: seq<Progress>, i: nat, c: int,
                                     uidValidity: nat)
    requires AllValid(s, calls) && i < |calls| && |states| == |calls| + 1 && c in s.connections
    ensures Readings(s, calls, states, c, uidValidity)[i]
            == ReadingOf(s, states[i], calls[i], states[i + 1], c, uidValidity)
  {
    var read := ReadingOfCall(s, calls, states, c, uidValidity);
    assert read(i) == ReadingOf(s, states[i], calls[i], states[i + 1], c, uidValidity);
    assert Tabulate(read, |calls|)[i] == read(i) by { TabulateAt(read, |calls|, i); }
  }

  /** A connection's part of what is in reach: in order, and each UID once. */
  lemma {:induction false} MineFacts(s: Scope, w: World, pos: Position, c: int)
    requires ValidScope(s) && ValidWorld(s, w) && c in s.connections
    ensures var mine := Filter(Rest(s, w, pos), OfConnection(c));
            && Strict(mine, ByOrder) && UniqueUids(mine)
            && forall m :: m in mine <==> m.connection == c && InReach(s, w, pos, m)
  {
    var mine := Filter(Rest(s, w, pos), OfConnection(c));
    assert MailboxOk(w, c);
    RestFacts(s, w, pos);
    FilterMembers(Rest(s, w, pos), OfConnection(c));
    FilterStrict(Rest(s, w, pos), OfConnection(c), ByOrder);
    forall i, j | 0 <= i < j < |mine| ensures mine[i].uid != mine[j].uid {
      assert mine[i] in mine && mine[j] in mine;
      SameUid(w.mailboxes[c], mine[j]);
      assert Less(ByOrder(mine[i]), ByOrder(mine[j]));
    }
  }

  lemma {:induction false} TakeOk(messages: seq<Message>, k: nat)
    requires Strict(messages, ByOrder) && UniqueUids(messages)
    ensures Strict(Take(messages, k), ByOrder) && UniqueUids(Take(messages, k))
    ensures forall m :: m in Take(messages, k) ==> m in messages
  {
  }

  lemma {:induction false} LiveResultOk(s: Scope, call: Call, pos: Position, c: int, uidValidity: nat)
    requires ValidCall(s, call) && c in s.connections
    ensures EntryOk(LiveResult(s, call, pos, c, uidValidity), c)
    ensures forall m :: m in LiveResult(s, call, pos, c, uidValidity).messages ==> InReach(s, call.world, pos, m)
  {
    MineFacts(s, call.world, pos, c);
    WantedUids(s, call.world);
    TakeOk(Filter(Rest(s, call.world, pos), OfConnection(c)), call.size + 1);
  }

  /** One call's effect on a connection's part of the cursor, and on what it has shown. */
  lemma {:induction false} TurnOfConnection(s: Scope, p: Progress, call: Call, c: int)
    requires ValidCall(s, call) && c in s.connections
    ensures var page, next := PageOf(s, call, p.pos), Turn(s, p, call);
            && StateOf(next.pos, c) == NewState(StateOf(p.pos, c), LastOf(page, c), call.world.uidNext[c])
            && ShownOf(next, c) == ShownOf(p, c) + |Filter(page, OfConnection(c))|
            && (LastOf(page, c).None? <==> |Filter(page, OfConnection(c))| == 0)
            && |Filter(page, OfConnection(c))| <= call.size
  {
    var page := PageOf(s, call, p.pos);
    FilterAppend(p.emitted, page, OfConnection(c));
    FilterLength(page, c);
  }

  /** A connection's cursor is empty exactly while nothing of it was shown, and its UIDNEXT is
      recorded from the first page on. */
  ghost predicate Follow(state: CursorState, shown: nat, started: bool, uidNext: nat) {
    (state.last.None? <==> shown == 0) && state.uidNext == (if started then uidNext else 0)
    && (!started ==> shown == 0)
  }

  lemma {:induction false} TurnFollows(s: Scope, p: Progress, call: Call, c: int, started: bool)
    requires ValidCall(s, call) && c in s.connections
    requires Follow(StateOf(p.pos, c), ShownOf(p, c), started, call.world.uidNext[c])
    ensures Follow(StateOf(Turn(s, p, call).pos, c), ShownOf(Turn(s, p, call), c), true, call.world.uidNext[c])
  {
    TurnOfConnection(s, p, call, c);
  }

  lemma {:induction false} CursorFollows(s: Scope, w: World, calls: seq<Call>, states: seq<Progress>, i: nat, c: int)
    requires Ran(s, w, calls, states) && i <= |calls| && c in s.connections
    ensures Follow(StateOf(states[i].pos, c), ShownOf(states[i], c), i > 0, w.uidNext[c])
  {
    if i > 0 {
      CursorFollows(s, w, calls, states, i - 1, c);
      assert Goes(s, w, calls, states, i - 1);
      TurnFollows(s, states[i - 1], calls[i - 1], c, i > 1);
    }
  }

  /** What a page's options say about the pages before it. */
  lemma {:induction false} ReadingOptions(s: Scope, p: Progress, call: Call, next: Progress, c: int, uidValidity: nat,
                                          started: bool)
    requires ValidCall(s, call) && c in s.connections
    requires Follow(StateOf(p.pos, c), ShownOf(p, c), started, call.world.uidNext[c])
    ensures var r := ReadingOf(s, p, call, next, c, uidValidity);
            && (r.o.maxUidExclusive == 0 || r.o.maxUidExclusive == call.world.uidNext[c])
            && (r.o.cursor.None? <==> r.shown == 0) && (!started ==> r.shown == 0)
  {
  }

  lemma {:induction false} CallOfTraversal(s: Scope, w: World, calls: seq<Call>, states: seq<Progress>, i: nat, c: int,
                                           uidValidity: nat)
    requires Ran(s, w, calls, states) && i < |calls| && c in s.connections
    ensures OfTraversal(Readings(s, calls, states, c, uidValidity)[i], i == 0, c, uidValidity, w.uidNext[c])
  {
    CursorFollows(s, w, calls, states, i, c);
    assert Goes(s, w, calls, states, i);
    ReadingOptions(s, states[i], calls[i], states[i + 1], c, uidValidity, i > 0);
    LiveResultOk(s, calls[i], states[i].pos, c, uidValidity);
    ReadingAt(s, calls, states, i, c, uidValidity);
  }

  lemma {:induction false} ReadingsOfTraversal(s: Scope, w: World, calls: seq<Call>, states: seq<Progress>, c: int,
                                               uidValidity: nat)
    requires Ran(s, w, calls, states) && c in s.connections
    ensures AllOfTraversal(Readings(s, calls, states, c, uidValidity), c, uidValidity, w.uidNext[c])
  {
    forall i | 0 <= i < |calls|
      ensures OfTraversal(Readings(s, calls, states, c, uidValidity)[i], i == 0, c, uidValidity, w.uidNext[c])
    {
      CallOfTraversal(s, w, calls, states, i, c, uidValidity);
    }
  }

  /** A page without a cursor read all that was left of a connection. */
  lemma {:induction false} LastPageIsFinal(s: Scope, p: Progress, call: Call, c: int, uidValidity: nat)
    requires ValidCall(s, call) && c in s.connections && !Turn(s, p, call).more
    ensures !LiveResult(s, call, p.pos, c, uidValidity).hasMore
  {
    FilterLength(Rest(s, call.world, p.pos), c);
  }

  lemma {:induction false} LastCallIsFinal(s: Scope, w: World, calls: seq<Call>, states: seq<Progress>, c: int,
                                           uidValidity: nat)
    requires Ran(s, w, calls, states) && calls != [] && !states[|calls|].more && c in s.connections
    ensures !Readings(s, calls, states, c, uidValidity)[|calls| - 1].result.hasMore
  {
    var n := |calls| - 1;
    assert Goes(s, w, calls, states, n);
    LastPageIsFinal(s, states[n], calls[n], c, uidValidity);
    ReadingAt(s, calls, states, n, c, uidValidity);
  }

  /** A connection's entry after a traversal, over anything cached before. */
  function EntryLeft(s: Scope, calls: seq<Call>, states: seq<Progress>, c: int, uidValidity: nat,
                     initial: Option<Entry>): Option<Entry>
    requires AllValid(s, calls) && |states| == |calls| + 1 && c in s.connections
  {
    EntryOver(Readings(s, calls, states, c, uidValidity), 0, |calls|, initial)
  }

  /** The cache a traversal leaves. */
  function CacheLeft(s: Scope, calls: seq<Call>, uidValidity: map<int, nat>, initial: Cache): Cache
    requires AllValid(s, calls) && forall c :: c in s.connections ==> c in uidValidity && c in initial
  {
    map c | c in s.connections :: EntryLeft(s, calls, States(s, calls), c, uidValidity[c], initial[c])
  }

  /** The last page leaves a connection an entry marked complete. */
  lemma {:induction false} LeftReadableOne(s: Scope, w: World, calls: seq<Call>, states: seq<Progress>, c: int,
                                           uidValidity: nat, initial: Option<Entry>)
    requires Ran(s, w, calls, states) && calls != [] && !states[|calls|].more && c in s.connections
    ensures ReadableOne(EntryLeft(s, calls, states, c, uidValidity, initial), c)
  {
    var readings := Readings(s, calls, states, c, uidValidity);
    assert AllOfTraversal(readings, c, uidValidity, w.uidNext[c]) by {
      ReadingsOfTraversal(s, w, calls, states, c, uidValidity);
    }
    assert !readings[|calls| - 1].result.hasMore by { LastCallIsFinal(s, w, calls, states, c, uidValidity); }
    LastMark(readings, |calls|, initial, c, uidValidity, w.uidNext[c]);
  }

  lemma {:induction false} LeftReadable(s: Scope, w: World, calls: seq<Call>, uidValidity: map<int, nat>,
                                        initial: Cache)
    requires ValidScope(s) && ValidWorld(s, w) && Finished(s, w, calls)
    requires forall c :: c in s.connections ==> c in uidValidity && c in initial
    ensures Readable(s.connections, CacheLeft(s, calls, uidValidity, initial))
  {
    var states := States(s, calls);
    FinishedRan(s, w, calls);
    forall c | c in s.connections ensures ReadableOne(EntryLeft(s, calls, states, c, uidValidity[c], initial[c]), c) {
      LeftReadableOne(s, w, calls, states, c, uidValidity[c], initial[c]);
    }
  }

  // ----- with local dates in order ----------------------------------------------------------------

  /** A connection's shown messages and those left are all of it. */
  ghost predicate SplitOf(s: Scope, w: World, p: Progress, c: int)
    requires ValidWorld(s, w)
  {
    && ShownOf(p, c) <= |AllOf(s, w, c)|
    && Filter(Rest(s, w, p.pos), OfConnection(c)) == AllOf(s, w, c)[ShownOf(p, c)..]
  }

  lemma {:induction false} LeftOver(s: Scope, w: World, calls: seq<Call>, states: seq<Progress>, i: nat, c: int)
    requires Ran(s, w, calls, states) && DatesFollow(s, w) && i <= |calls|
    ensures SplitOf(s, w, states[i], c)
  {
    StillTraversal(s, w, calls, states, i);
    FilterAppend(states[i].emitted, Rest(s, w, states[i].pos), OfConnection(c));
  }

  lemma {:induction false} StretchRead(s: Scope, p: Progress, call: Call, c: int, uidValidity: nat)
    requires ValidCall(s, call) && c in s.connections && SplitOf(s, call.world, p, c)
    ensures var left := AllOf(s, call.world, c)[ShownOf(p, c)..];
            LiveResult(s, call, p.pos, c, uidValidity)
            == Entry(Take(left, call.size + 1), uidValidity, call.world.uidNext[c], |left| > call.size + 1)
  {
  }

  /** A live page reads the next stretch of each connection. */
  lemma {:induction false} PageReads(s: Scope, p: Progress, call: Call, c: int, uidValidity: nat, started: bool)
    requires ValidCall(s, call) && c in s.connections
    requires SplitOf(s, call.world, p, c) && SplitOf(s, call.world, Turn(s, p, call), c)
    requires Follow(StateOf(p.pos, c), ShownOf(p, c), started, call.world.uidNext[c])
    ensures Reads(ReadingOf(s, p, call, Turn(s, p, call), c, uidValidity), AllOf(s, call.world, c), uidValidity,
                  call.world.uidNext[c])
  {
    TurnOfConnection(s, p, call, c);
    MineFacts(s, call.world, map[], c);
    ReadingOptions(s, p, call, Turn(s, p, call), c, uidValidity, started);
    StretchRead(s, p, call, c, uidValidity);
  }

  lemma {:induction false} CallReads(s: Scope, w: World, calls: seq<Call>, states: seq<Progress>, i: nat, c: int,
                                     uidValidity: nat)
    requires Ran(s, w, calls, states) && DatesFollow(s, w) && i < |calls| && c in s.connections
    ensures Reads(Readings(s, calls, states, c, uidValidity)[i], AllOf(s, w, c), uidValidity, w.uidNext[c])
  {
    CursorFollows(s, w, calls, states, i, c);
    LeftOver(s, w, calls, states, i, c);
    LeftOver(s, w, calls, states, i + 1, c);
    assert Goes(s, w, calls, states, i);
    PageReads(s, states[i], calls[i], c, uidValidity, i > 0);
    ReadingAt(s, calls, states, i, c, uidValidity);
  }

  lemma {:induction false} ShownBetween(s: Scope, calls: seq<Call>, states: seq<Progress>, i: nat, c: int,
                                        uidValidity: nat)
    requires AllValid(s, calls) && i < |calls| && |states| == |calls| + 1 && c in s.connections
    ensures var r := Readings(s, calls, states, c, uidValidity)[i];
            r.shown == ShownOf(states[i], c) && r.more == ShownOf(states[i + 1], c)
  {
    ReadingAt(s, calls, states, i, c, uidValidity);
  }

  /** Each call finds shown what the one before left shown. */
  lemma {:induction false} ReadingsMeet(s: Scope, calls: seq<Call>, states: seq<Progress>, i: nat, c: int,
                                        uidValidity: nat)
    requires AllValid(s, calls) && i < |calls| && |states| == |calls| + 1 && states[0] == Begin() && c in s.connections
    ensures var readings := Readings(s, calls, states, c, uidValidity);
            readings[i].shown == if i == 0 then 0 else readings[i - 1].more
  {
    var readings := Readings(s, calls, states, c, uidValidity);
    assert readings[i].shown == ShownOf(states[i], c) by { ShownBetween(s, calls, states, i, c, uidValidity); }
    if i > 0 {
      assert readings[i - 1].more == ShownOf(states[i], c) by {
        ShownBetween(s, calls, states, i - 1, c, uidValidity);
      }
    }
  }

  lemma {:induction false} CallLinks(s: Scope, w: World, calls: seq<Call>, states: seq<Progress>, i: nat, c: int,
                                     uidValidity: nat)
    requires Ran(s, w, calls, states) && DatesFollow(s, w) && i < |calls| && c in s.connections
    ensures Links(Readings(s, calls, states, c, uidValidity), i, AllOf(s, w, c), uidValidity, w.uidNext[c])
  {
    var readings := Readings(s, calls, states, c, uidValidity);
    assert Reads(readings[i], AllOf(s, w, c), uidValidity, w.uidNext[c]) by {
      CallReads(s, w, calls, states, i, c, uidValidity);
    }
    assert readings[i].shown == if i == 0 then 0 else readings[i - 1].more by {
      ReadingsMeet(s, calls, states, i, c, uidValidity);
    }
    Linked(readings, i, AllOf(s, w, c), uidValidity, w.uidNext[c]);
  }

  /** The live pages read one stretch of a connection's wanted messages after the other. */
  lemma {:induction false} ReadingsChain(s: Scope, w: World, calls: seq<Call>, states: seq<Progress>, c: int,
                                         uidValidity: nat)
    requires Ran(s, w, calls, states) && DatesFollow(s, w) && c in s.connections
    ensures Chain(Readings(s, calls, states, c, uidValidity), AllOf(s, w, c), uidValidity, w.uidNext[c])
  {
    forall i | 0 <= i < |calls|
      ensures Links(Readings(s, calls, states, c, uidValidity), i, AllOf(s, w, c), uidValidity, w.uidNext[c])
    {
      CallLinks(s, w, calls, states, i, c, uidValidity);
    }
  }

  /** After the last page the entry holds all of the connection's wanted messages. */
  lemma {:induction false} CacheComplete(s: Scope, w: World, calls: seq<Call>, states: seq<Progress>, c: int,
                                         uidValidity: nat, initial: Option<Entry>)
    requires Ran(s, w, calls, states) && DatesFollow(s, w) && c in s.connections
    requires calls != [] && !states[|calls|].more
    ensures var entry := EntryLeft(s, calls, states, c, uidValidity, initial);
            entry.Some? && !entry.value.hasMore && entry.value.messages == AllOf(s, w, c)
  {
    var readings := Readings(s, calls, states, c, uidValidity);
    assert Chain(readings, AllOf(s, w, c), uidValidity, w.uidNext[c]) by {
      ReadingsChain(s, w, calls, states, c, uidValidity);
    }
    assert !readings[|calls| - 1].result.hasMore by { LastCallIsFinal(s, w, calls, states, c, uidValidity); }
    assert readings[0].shown == 0 by { ShownBetween(s, calls, states, 0, c, uidValidity); }
    CacheCovers(readings, 0, |calls|, initial, AllOf(s, w, c), uidValidity, w.uidNext[c]);
  }

  /** What a cache of complete entries holds is all wanted mail. */
  lemma {:induction false} CompleteHoldsAll(s: Scope, w: World, cache: Cache)
    requires ValidScope(s) && ValidWorld(s, w) && Readable(s.connections, cache)
    requires forall c :: c in s.connections ==> cache[c].value.messages == AllOf(s, w, c)
    ensures AllCached(s.connections, cache) == Rest(s, w, map[])
  {
    OfflineRestFacts(s.connections, cache, map[]);
    RestFacts(s, w, map[]);
    forall m ensures m in AllCached(s.connections, cache) <==> m in Rest(s, w, map[]) {
      if m.connection in s.connections {
        FilterMembers(Rest(s, w, map[]), OfConnection(m.connection));
      }
    }
    StrictUnique(AllCached(s.connections, cache), Rest(s, w, map[]), ByOrder);
  }

  /** At least as many pages as messages. */
  predicate LongEnough(sizes: seq<nat>, messages: nat) {
    sizes != [] && |sizes| >= messages && ValidSizes(sizes)
  }

  /** Every finished offline traversal over the cache, whatever its page sizes, shows the same
      messages in the same order as the live one. */
  ghost predicate OfflineAgrees(s: Scope, calls: seq<Call>, cache: Cache)
    requires AllValid(s, calls)
  {
    Readable(s.connections, cache)
    && forall sizes :: ValidSizes(sizes) && !OfflineOutcome(s.connections, cache, sizes).more
                       ==> OfflineOutcome(s.connections, cache, sizes).emitted == Outcome(s, calls).emitted
  }

  /** Offline equals live. With local dates in order, after a finished live traversal of
      unchanged mailboxes with any page sizes and anything cached before, every finished offline
      traversal shows the same; and one with as many pages as messages finishes. */
  lemma {:induction false} OfflineEqualsLive(s: Scope, calls: seq<Call>, w: World, uidValidity: map<int, nat>,
                                             initial: Cache, sizes: seq<nat>)
    requires ValidScope(s) && ValidWorld(s, w) && DatesFollow(s, w) && Finished(s, w, calls)
    requires forall c :: c in s.connections ==> c in uidValidity && c in initial
    ensures var cache := CacheLeft(s, calls, uidValidity, initial);
            && OfflineAgrees(s, calls, cache)
            && (LongEnough(sizes, |Outcome(s, calls).emitted|) ==> !OfflineOutcome(s.connections, cache, sizes).more)
  {
    var cache := CacheLeft(s, calls, uidValidity, initial);
    LeftReadable(s, w, calls, uidValidity, initial);
    FinishedRan(s, w, calls);
    forall c | c in s.connections ensures cache[c].value.messages == AllOf(s, w, c) {
      CacheComplete(s, w, calls, States(s, calls), c, uidValidity[c], initial[c]);
    }
    CompleteHoldsAll(s, w, cache);
    StillTraversal(s, w, calls, States(s, calls), |calls|);
    forall others: seq<nat> | ValidSizes(others) && !OfflineOutcome(s.connections, cache, others).more
      ensures OfflineOutcome(s.connections, cache, others).emitted == Outcome(s, calls).emitted
    {
      OfflineTraversal(s.connections, cache, others, |others|);
    }
    OfflineTraversal(s.connections, cache, sizes, |sizes|);
  }
}
