/** Pages of several traversals reach one cache entry in any order: from its first page on a
    traversal fills the entry as if it were alone, as long as the others only continue. */
module Interleaving {
  import opened Wrappers
  import opened Ordering
  import opened MailSearch
  import opened PageMerge
  import opened Pagination
  import opened Traversal
  import opened HiddenMail
  import opened OfflineCache
  import opened CachedPages
  import opened CachedTraversal

  /** A page that reaches the entry: of the traversal in question, or of another. */
  datatype Arrival = Arrival(mine: bool, page: Reading)

  /** The entry after the first n pages. */
  function Through(arrivals: seq<Arrival>, n: nat, found: Option<Entry>): Option<Entry>
    requires n <= |arrivals|
  {
    if n == 0 then found
    else Some(Stored(Through(arrivals, n - 1, found), arrivals[n - 1].page.o, arrivals[n - 1].page.result))
  }

  /** The pages of the traversal itself. */
  function Own(arrivals: seq<Arrival>, n: nat): seq<Reading>
    requires n <= |arrivals|
  {
    if n == 0 then []
    else Own(arrivals, n - 1) + if arrivals[n - 1].mine then [arrivals[n - 1].page] else []
  }

  /** A continuation page of a traversal with another generation or UIDNEXT. */
  ghost predicate Elsewhere(page: Reading, uidValidity: nat, uidNext: nat) {
    && page.o.cursor.Some?
    && (page.result.uidValidity != uidValidity || RecordedUidNext(page.o, page.result) != uidNext)
  }

  ghost predicate OthersElsewhere(arrivals: seq<Arrival>, uidValidity: nat, uidNext: nat) {
    forall i :: 0 <= i < |arrivals| && !arrivals[i].mine ==> Elsewhere(arrivals[i].page, uidValidity, uidNext)
  }

  /** Such a page leaves the entry, and one that begins anew replaces it. */
  lemma {:induction false} SurvivesExactly(entry: Entry, o: Options, result: Entry)
    requires result.uidValidity != entry.uidValidity || RecordedUidNext(o, result) != entry.uidNext
    ensures Stored(Some(entry), o, result) == entry <==> o.cursor.Some?
  {
  }

  /** An entry that a traversal has completed stays as it is. */
  lemma {:induction false} LatePagesLeave(arrivals: seq<Arrival>, n: nat, entry: Entry)
    requires n <= |arrivals| && (forall i :: 0 <= i < |arrivals| ==> !arrivals[i].mine)
    requires OthersElsewhere(arrivals, entry.uidValidity, entry.uidNext)
    ensures Through(arrivals, n, Some(entry)) == Some(entry)
  {
    if n > 0 {
      LatePagesLeave(arrivals, n - 1, entry);
      SurvivesExactly(entry, arrivals[n - 1].page.o, arrivals[n - 1].page.result);
    }
  }

  lemma {:induction false} OwnBefore(readings: seq<Reading>, page: Reading, found: Option<Entry>, k: nat)
    requires k <= |readings|
    ensures EntryOver(readings + [page], 0, k, found) == EntryOver(readings, 0, k, found)
  {
    if k > 0 {
      OwnBefore(readings, page, found, k - 1);
      assert (readings + [page])[k - 1] == readings[k - 1];
    }
  }

  lemma {:induction false} OwnPart(readings: seq<Reading>, page: Reading, c: int, uidValidity: nat, uidNext: nat)
    requires AllOfTraversal(readings + [page], c, uidValidity, uidNext)
    ensures AllOfTraversal(readings, c, uidValidity, uidNext)
    ensures OfTraversal(page, readings == [], c, uidValidity, uidNext)
  {
    assert (readings + [page])[|readings|] == page;
    forall i | 0 <= i < |readings| ensures OfTraversal(readings[i], i == 0, c, uidValidity, uidNext) {
      assert (readings + [page])[i] == readings[i];
    }
  }

  /** The traversal's first page comes first; after it the others leave no trace. */
  lemma {:induction false} AsIfAlone(arrivals: seq<Arrival>, n: nat, found: Option<Entry>, c: int, uidValidity: nat,
                                     uidNext: nat)
    requires 0 < n <= |arrivals| && arrivals[0].mine && OthersElsewhere(arrivals, uidValidity, uidNext)
    requires AllOfTraversal(Own(arrivals, n), c, uidValidity, uidNext)
    ensures Own(arrivals, n) != []
    ensures Through(arrivals, n, found) == EntryOver(Own(arrivals, n), 0, |Own(arrivals, n)|, found)
  {
    var before, last := Own(arrivals, n - 1), arrivals[n - 1];
    if n == 1 {
      assert Own(arrivals, 1) == [last.page];
      assert EntryOver([last.page], 0, 0, found) == found;
    } else if last.mine {
      OwnPart(before, last.page, c, uidValidity, uidNext);
      AsIfAlone(arrivals, n - 1, found, c, uidValidity, uidNext);
      OwnBefore(before, last.page, found, |before|);
    } else {
      assert Own(arrivals, n) == before;
      AsIfAlone(arrivals, n - 1, found, c, uidValidity, uidNext);
      EntryKept(before, |before|, found, c, uidValidity, uidNext);
      SurvivesExactly(EntryOver(before, 0, |before|, found).value, last.page.o, last.page.result);
    }
  }

  // ----- whole traversals -------------------------------------------------------------------------

  /** What reaches each connection's entry during a traversal: its own pages, of which the first
      comes first, and continuation pages of others. */
  ghost predicate Mixed(s: Scope, w: World, calls: seq<Call>, uidValidity: map<int, nat>,
                        arrivals: map<int, seq<Arrival>>)
    requires AllValid(s, calls) && ValidWorld(s, w)
  {
    forall c :: c in s.connections ==>
      && c in uidValidity && c in arrivals && arrivals[c] != [] && arrivals[c][0].mine
      && OthersElsewhere(arrivals[c], uidValidity[c], w.uidNext[c])
      && Own(arrivals[c], |arrivals[c]|) == Readings(s, calls, States(s, calls), c, uidValidity[c])
  }

  /** The cache all of that leaves. */
  function CacheAfter(connections: seq<int>, arrivals: map<int, seq<Arrival>>, found: Cache): Cache
    requires forall c :: c in connections ==> c in arrivals && c in found
  {
    map c | c in connections :: Through(arrivals[c], |arrivals[c]|, found[c])
  }

  /** A traversal of unchanged mailboxes leaves the same cache whatever other traversals, begun
      before it, still read and store meanwhile and afterwards. */
  lemma {:induction false} MixedLeavesSame(s: Scope, w: World, calls: seq<Call>, uidValidity: map<int, nat>,
                                           initial: Cache, arrivals: map<int, seq<Arrival>>)
    requires ValidScope(s) && ValidWorld(s, w) && Finished(s, w, calls)
    requires Mixed(s, w, calls, uidValidity, arrivals) && forall c :: c in s.connections ==> c in initial
    ensures CacheAfter(s.connections, arrivals, initial) == CacheLeft(s, calls, uidValidity, initial)
  {
    FinishedRan(s, w, calls);
    forall c | c in s.connections
      ensures Through(arrivals[c], |arrivals[c]|, initial[c])
              == EntryLeft(s, calls, States(s, calls), c, uidValidity[c], initial[c])
    {
      ReadingsOfTraversal(s, w, calls, States(s, calls), c, uidValidity[c]);
      AsIfAlone(arrivals[c], |arrivals[c]|, initial[c], c, uidValidity[c], w.uidNext[c]);
    }
  }

  /** So offline equals live among other traversals, too. */
  lemma {:induction false} MixedOfflineEqualsLive(s: Scope, w: World, calls: seq<Call>, uidValidity: map<int, nat>,
                                                  initial: Cache, arrivals: map<int, seq<Arrival>>)
    requires ValidScope(s) && ValidWorld(s, w) && DatesFollow(s, w) && Finished(s, w, calls)
    requires Mixed(s, w, calls, uidValidity, arrivals) && forall c :: c in s.connections ==> c in initial
    ensures OfflineAgrees(s, calls, CacheAfter(s.connections, arrivals, initial))
  {
    MixedLeavesSame(s, w, calls, uidValidity, initial, arrivals);
    OfflineEqualsLive(s, calls, w, uidValidity, initial, []);
  }

  /** And after it has finished, late pages of others change no offline page. */
  lemma {:induction false} LatePagesChangeNothing(connections: seq<int>, cache: Cache, late: map<int, seq<Arrival>>)
    requires Readable(connections, cache)
    requires forall c :: c in connections ==>
               && c in late && (forall i :: 0 <= i < |late[c]| ==> !late[c][i].mine)
               && OthersElsewhere(late[c], cache[c].value.uidValidity, cache[c].value.uidNext)
    ensures var after := CacheAfter(connections, late, cache);
            && Readable(connections, after) && (forall c :: c in connections ==> after[c] == cache[c])
            && (forall pos :: OfflineRest(connections, after, pos) == OfflineRest(connections, cache, pos))
  {
    var after := CacheAfter(connections, late, cache);
    forall c | c in connections ensures after[c] == cache[c] { LatePagesLeave(late[c], |late[c]|, cache[c].value); }
    forall pos ensures OfflineRest(connections, after, pos) == OfflineRest(connections, cache, pos) {
      assert CachedParts(connections, after, pos) == CachedParts(connections, cache, pos);
    }
  }
}
