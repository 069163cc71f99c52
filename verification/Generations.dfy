/** Mailbox generations in the cache. Any number of readers snapshot the cached UIDVALIDITY,
    read from the provider, commit the generation they saw by compare-and-set, and only then
    write bodies, the entry of the search they ran and the mailbox's index; lookups run between
    any two of these steps. */
module Generations {
  import opened Wrappers

  /** A message as it was fetched, with the UIDVALIDITY the server had at that moment. */
  datatype Item = Item(uid: int, under: nat)

  datatype BodyKey = BodyKey(uidValidity: nat, uid: int)

  /** A cached list: the index of the mailbox, or the entry of one search. */
  datatype Index = Index(uidValidity: nat, items: set<Item>)

  /** The entry of a search belongs to one traversal, told apart by its UIDNEXT. */
  datatype Scoped = Scoped(index: Index, uidNext: nat)

  /** What a reader asks the provider for: the UIDVALIDITY alone, one body, or a page of a search,
      which may continue another page. */
  datatype Request =
    | CheckValidity
    | FetchBody(uid: int)
    | SearchList(scope: nat, uids: set<int>, continuation: bool, uidNext: nat)

  datatype Reader =
    | Idle
    | Snapshotted(snapshot: Option<nat>)
    | Fetched(snapshot: Option<nat>, under: nat, request: Request)
    | Committed(under: nat, request: Request)
    | EntryWritten(under: nat, page: set<Item>, combined: set<Item>)
    | GenerationRead(generation: Option<nat>)
    | IndexRead(index: Option<Index>)

  /** What a lookup served, with the generation it read. */
  datatype Served = Served(generation: nat, items: set<Item>)

  /** The server, the cached generation row, the cached bodies, index and search entries, the
      readers, and a log of everything served from the cache. */
  datatype State = State(
    server: nat, row: Option<nat>, bodies: map<BodyKey, Item>, index: Option<Index>, scoped: map<nat, Scoped>,
    readers: map<nat, Reader>, served: seq<Served>)

  datatype Event =
    | Renumber(uidValidity: nat)
    | TakeSnapshot(reader: nat)
    | ReadProvider(reader: nat, request: Request)
    | Commit(reader: nat)
    | WriteCache(reader: nat)
    | WriteIndex(reader: nat, whole: bool, replaced: set<int>, expired: set<int>)
    | ReadGeneration(reader: nat)
    | ServeBody(reader: nat, uid: int)
    | ReadIndex(reader: nat)
    | ReadScoped(reader: nat, scope: nat)
    | ServeIndex(reader: nat)
    | Abandon(reader: nat)
    | EvictBody(key: BodyKey)
    | EvictIndex
    | EvictScoped(scope: nat)

  function ReaderOf(s: State, r: nat): Reader { if r in s.readers then s.readers[r] else Idle }

  function With(s: State, r: nat, reader: Reader): State { s.(readers := s.readers[r := reader]) }

  /** commitMailboxUIDValidity: compare-and-set against the snapshot; a zero UIDVALIDITY is
      refused. None is a refusal. */
  function CommitRow(row: Option<nat>, snapshot: Option<nat>, uidValidity: nat): Option<nat> {
    if uidValidity == 0 || row != snapshot then None else Some(uidValidity)
  }

  function ItemsOf(uids: set<int>, under: nat): set<Item> { set uid | uid in uids :: Item(uid, under) }

  function Without(items: set<Item>, uids: set<int>): set<Item> { set item | item in items && item.uid !in uids }

  /** The first write of a search: a first page replaces the entry, a continuation extends it, and
      one of another traversal is rejected. None is a rejection. */
  function MergeScoped(found: Option<Scoped>, continuation: bool, page: Scoped): Option<Scoped> {
    if !continuation || found.None? then Some(page)
    else if found.value.index.uidValidity == page.index.uidValidity && found.value.uidNext == page.uidNext
    then Some(page.(index := Index(page.index.uidValidity, found.value.index.items + page.index.items)))
    else None
  }

  /** The second: the index keeps its items only while the generation stays the same; a complete
      search takes the place of what it matches. */
  function MergeIndex(index: Option<Index>, under: nat, page: set<Item>, combined: set<Item>, whole: bool,
                      replaced: set<int>): Index {
    if index.None? || index.value.uidValidity != under then Index(under, page)
    else if whole then Index(under, Without(index.value.items, replaced) + combined)
    else Index(under, index.value.items + page)
  }

  /** What a committed reader writes. */
  function Write(s: State, r: nat, under: nat, request: Request): State {
    match request
    case CheckValidity => With(s, r, Idle)
    case FetchBody(uid) => With(s, r, Idle).(bodies := s.bodies[BodyKey(under, uid) := Item(uid, under)])
    case SearchList(scope, uids, continuation, uidNext) =>
      var page := Scoped(Index(under, ItemsOf(uids, under)), uidNext);
      var found := if scope in s.scoped then Some(s.scoped[scope]) else None;
      var combined := MergeScoped(found, continuation, page);
      if combined.None? then With(s, r, Idle)
      else
        With(s, r, EntryWritten(under, page.index.items, combined.value.index.items))
          .(scoped := s.scoped[scope := combined.value])
  }

  function Step(s: State, e: Event): State {
    match e
    case Renumber(v) => if v >= s.server then s.(server := v) else s
    case TakeSnapshot(r) => if ReaderOf(s, r).Idle? then With(s, r, Snapshotted(s.row)) else s
    case ReadProvider(r, request) =>
      if ReaderOf(s, r).Snapshotted? then With(s, r, Fetched(ReaderOf(s, r).snapshot, s.server, request)) else s
    case Commit(r) =>
      if !ReaderOf(s, r).Fetched? then s
      else
        var reader := ReaderOf(s, r);
        var committed := CommitRow(s.row, reader.snapshot, reader.under);
        if committed.None? then With(s, r, Idle)
        else With(s.(row := committed), r, Committed(reader.under, reader.request))
    case WriteCache(r) =>
      if ReaderOf(s, r).Committed? then Write(s, r, ReaderOf(s, r).under, ReaderOf(s, r).request) else s
    case WriteIndex(r, whole, replaced, expired) =>
      if !ReaderOf(s, r).EntryWritten? then s
      else
        var reader := ReaderOf(s, r);
        var index := MergeIndex(s.index, reader.under, reader.page, reader.combined, whole, replaced);
        With(s, r, Idle).(index := Some(index.(items := Without(index.items, expired))))
    case ReadGeneration(r) => if ReaderOf(s, r).Idle? then With(s, r, GenerationRead(s.row)) else s
    case ServeBody(r, uid) =>
      if !ReaderOf(s, r).GenerationRead? then s
      else
        var generation := ReaderOf(s, r).generation;
        if generation.Some? && BodyKey(generation.value, uid) in s.bodies
        then
          var item := s.bodies[BodyKey(generation.value, uid)];
          With(s, r, Idle).(served := s.served + [Served(generation.value, {item})])
        else With(s, r, Idle)
    case ReadIndex(r) => if ReaderOf(s, r).Idle? then With(s, r, IndexRead(s.index)) else s
    case ReadScoped(r, scope) =>
      if ReaderOf(s, r).Idle? && scope in s.scoped then With(s, r, IndexRead(Some(s.scoped[scope].index))) else s
    case ServeIndex(r) =>
      if !ReaderOf(s, r).IndexRead? then s
      else
        var index := ReaderOf(s, r).index;
        if index.Some? && s.row == Some(index.value.uidValidity)
        then With(s, r, Idle).(served := s.served + [Served(index.value.uidValidity, index.value.items)])
        else With(s, r, Idle)
    case Abandon(r) => With(s, r, Idle)
    case EvictBody(key) => s.(bodies := s.bodies - {key})
    case EvictIndex => s.(index := None)
    case EvictScoped(scope) => s.(scoped := s.scoped - {scope})
  }

  function Start(uidValidity: nat): State { State(uidValidity, None, map[], None, map[], map[], []) }

  function Run(uidValidity: nat, events: seq<Event>): State {
    if events == [] then Start(uidValidity) else Step(Run(uidValidity, events[..|events| - 1]), events[|events| - 1])
  }

  // ----- invariant ------------------------------------------------------------------------------

  predicate AtMost(row: Option<nat>, bound: nat) { row.Some? ==> row.value <= bound }

  ghost predicate ReaderOk(reader: Reader, server: nat) {
    match reader
    case Idle => true
    case Snapshotted(snapshot) => AtMost(snapshot, server)
    case Fetched(snapshot, under, _) => AtMost(snapshot, under) && under <= server
    case Committed(under, _) => under <= server
    case EntryWritten(under, page, combined) => IndexOk(Index(under, page)) && IndexOk(Index(under, combined))
    case GenerationRead(generation) => AtMost(generation, server)
    case IndexRead(index) => index.Some? ==> IndexOk(index.value)
  }

  ghost predicate IndexOk(index: Index) { forall item :: item in index.items ==> item.under == index.uidValidity }

  ghost predicate Inv(s: State) {
    && AtMost(s.row, s.server)
    && (forall r :: r in s.readers ==> ReaderOk(s.readers[r], s.server))
    && (forall k :: k in s.bodies ==> s.bodies[k] == Item(k.uid, k.uidValidity))
    && (s.index.Some? ==> IndexOk(s.index.value))
    && (forall scope :: scope in s.scoped ==> IndexOk(s.scoped[scope].index))
    && (forall i :: 0 <= i < |s.served| ==> forall item :: item in s.served[i].items ==>
          item.under == s.served[i].generation)
  }

  /** Putting a reader into a sound state keeps everything else. */
  lemma {:induction false} WithKeeps(s: State, r: nat, reader: Reader)
    requires Inv(s) && ReaderOk(reader, s.server)
    ensures Inv(With(s, r, reader))
  {
  }

  lemma {:induction false} MergeScopedOk(found: Option<Scoped>, continuation: bool, page: Scoped)
    requires (found.Some? ==> IndexOk(found.value.index)) && IndexOk(page.index)
    ensures var combined := MergeScoped(found, continuation, page); combined.Some? ==> IndexOk(combined.value.index)
  {
  }

  lemma {:induction false} WriteScopedKeeps(s: State, r: nat, under: nat, scope: nat, page: Scoped, combined: Scoped)
    requires Inv(s) && IndexOk(page.index) && IndexOk(combined.index)
    requires page.index.uidValidity == combined.index.uidValidity == under
    ensures Inv(With(s, r, EntryWritten(under, page.index.items, combined.index.items))
                .(scoped := s.scoped[scope := combined]))
  {
    WithKeeps(s, r, EntryWritten(under, page.index.items, combined.index.items));
  }

  lemma {:induction false} WriteKeeps(s: State, r: nat)
    requires Inv(s)
    ensures Inv(Step(s, WriteCache(r)))
  {
    WithKeeps(s, r, Idle);
    if ReaderOf(s, r).Committed? && ReaderOf(s, r).request.SearchList? {
      var under, request := ReaderOf(s, r).under, ReaderOf(s, r).request;
      var page := Scoped(Index(under, ItemsOf(request.uids, under)), request.uidNext);
      var found := if request.scope in s.scoped then Some(s.scoped[request.scope]) else None;
      var combined := MergeScoped(found, request.continuation, page);
      MergeScopedOk(found, request.continuation, page);
      if combined.Some? { WriteScopedKeeps(s, r, under, request.scope, page, combined.value); }
    }
  }

  lemma {:induction false} WriteIndexKeeps(s: State, r: nat, whole: bool, replaced: set<int>, expired: set<int>)
    requires Inv(s)
    ensures Inv(Step(s, WriteIndex(r, whole, replaced, expired)))
  {
    assert ReaderOk(ReaderOf(s, r), s.server);
  }

  lemma {:induction false} ReadScopedKeeps(s: State, r: nat, scope: nat)
    requires Inv(s)
    ensures Inv(Step(s, ReadScoped(r, scope)))
  {
  }

  lemma {:induction false} ServeBodyKeeps(s: State, r: nat, uid: int)
    requires Inv(s)
    ensures Inv(Step(s, ServeBody(r, uid)))
  {
  }

  lemma {:induction false} ServeIndexKeeps(s: State, r: nat)
    requires Inv(s)
    ensures Inv(Step(s, ServeIndex(r)))
  {
    assert ReaderOk(ReaderOf(s, r), s.server);
  }

  lemma {:induction false} CommitKeeps(s: State, r: nat)
    requires Inv(s)
    ensures Inv(Step(s, Commit(r)))
    ensures s.row.Some? ==> Step(s, Commit(r)).row.Some? && s.row.value <= Step(s, Commit(r)).row.value
  {
    assert ReaderOk(ReaderOf(s, r), s.server);
  }

  /** The steps of one reader that write nothing. */
  lemma {:induction false} ReadKeeps(s: State, e: Event)
    requires Inv(s) && (e.TakeSnapshot? || e.ReadProvider? || e.ReadGeneration? || e.ReadIndex? || e.Abandon?)
    ensures Inv(Step(s, e))
  {
    assert ReaderOk(ReaderOf(s, e.reader), s.server);
  }

  lemma {:induction false} LossKeeps(s: State, e: Event)
    requires Inv(s) && (e.Renumber? || e.EvictBody? || e.EvictIndex? || e.EvictScoped?)
    ensures Inv(Step(s, e))
  {
  }

  /** Only a commit changes the cached generation. */
  lemma {:induction false} RowKept(s: State, e: Event)
    requires !e.Commit?
    ensures Step(s, e).row == s.row
  {
  }

  /** Every step keeps the invariant and never lowers the cached generation. */
  lemma {:induction false} StepKeeps(s: State, e: Event)
    requires Inv(s)
    ensures Inv(Step(s, e))
    ensures s.row.Some? ==> Step(s, e).row.Some? && s.row.value <= Step(s, e).row.value
  {
    if !e.Commit? { RowKept(s, e); }
    match e
    case Commit(r) => CommitKeeps(s, r);
    case WriteCache(r) => WriteKeeps(s, r);
    case WriteIndex(r, whole, replaced, expired) => WriteIndexKeeps(s, r, whole, replaced, expired);
    case ReadScoped(r, scope) => ReadScopedKeeps(s, r, scope);
    case ServeBody(r, uid) => ServeBodyKeeps(s, r, uid);
    case ServeIndex(r) => ServeIndexKeeps(s, r);
    case Renumber(_) => LossKeeps(s, e);
    case EvictBody(_) => LossKeeps(s, e);
    case EvictIndex => LossKeeps(s, e);
    case EvictScoped(_) => LossKeeps(s, e);
    case _ => ReadKeeps(s, e);
  }

  lemma {:induction false} RunKeeps(uidValidity: nat, events: seq<Event>)
    ensures Inv(Run(uidValidity, events))
  {
    if events != [] {
      RunKeeps(uidValidity, events[..|events| - 1]);
      StepKeeps(Run(uidValidity, events[..|events| - 1]), events[|events| - 1]);
    }
  }

  /** Generations never go backwards: over any interleaving, once a generation is cached every
      later one is at least as high. */
  lemma {:induction false} GenerationNeverDecreases(uidValidity: nat, events: seq<Event>, n: nat)
    requires n <= |events| && Run(uidValidity, events[..n]).row.Some?
    ensures Run(uidValidity, events).row.Some?
    ensures Run(uidValidity, events[..n]).row.value <= Run(uidValidity, events).row.value
    ensures Run(uidValidity, events).row.value <= Run(uidValidity, events).server
  {
    RunKeeps(uidValidity, events);
    if n == |events| {
      assert events[..n] == events;
    } else {
      var before := events[..|events| - 1];
      assert before[..n] == events[..n];
      GenerationNeverDecreases(uidValidity, before, n);
      RunKeeps(uidValidity, before);
      StepKeeps(Run(uidValidity, before), events[|events| - 1]);
    }
  }

  /** Generations never mix: everything ever served from the cache was fetched under the very
      generation the lookup read. */
  lemma {:induction false} ServedUnderGenerationRead(uidValidity: nat, events: seq<Event>)
    ensures forall served :: served in Run(uidValidity, events).served ==>
      forall item :: item in served.items ==> item.under == served.generation
  {
    RunKeeps(uidValidity, events);
  }

  // ----- what one reader comes to, with nothing between its steps ---------------------------------

  /** The state after a reader has fetched something, committed the generation and written it. */
  function Fetch(s: State, r: nat, request: Request): State {
    Step(Step(Step(Step(s, TakeSnapshot(r)), ReadProvider(r, request)), Commit(r)), WriteCache(r))
  }

  lemma {:induction false} Fetching(s: State, r: nat, request: Request)
    requires ReaderOf(s, r).Idle? && s.server > 0
    ensures var committed := Step(Step(Step(s, TakeSnapshot(r)), ReadProvider(r, request)), Commit(r));
            committed == s.(row := Some(s.server), readers := s.readers[r := Committed(s.server, request)])
  {
    var a := Step(s, TakeSnapshot(r));
    var b := Step(a, ReadProvider(r, request));
    assert a.readers[r := Fetched(s.row, s.server, request)] == s.readers[r := Fetched(s.row, s.server, request)];
    assert b.readers[r := Committed(s.server, request)] == s.readers[r := Committed(s.server, request)];
  }

  /** A body that was fetched is served back, under the generation the server has. */
  lemma {:induction false} FetchedIsServed(s: State, r: nat, uid: int)
    requires ReaderOf(s, r).Idle? && s.server > 0
    ensures var written := Fetch(s, r, FetchBody(uid));
            var next := Step(Step(written, ReadGeneration(r)), ServeBody(r, uid));
            && next.served == s.served + [Served(s.server, {Item(uid, s.server)})]
            && next.row == Some(s.server) && next.index == s.index && next.scoped == s.scoped
            && next.bodies == s.bodies[BodyKey(s.server, uid) := Item(uid, s.server)] && ReaderOf(next, r).Idle?
  {
    Fetching(s, r, FetchBody(uid));
  }

  /** Asking for the UIDVALIDITY alone commits it and writes nothing else. */
  lemma {:induction false} CheckedIsCommitted(s: State, r: nat)
    requires ReaderOf(s, r).Idle? && s.server > 0
    ensures var next := Fetch(s, r, CheckValidity);
            && next.row == Some(s.server) && next.bodies == s.bodies && next.index == s.index
            && next.scoped == s.scoped && next.served == s.served && ReaderOf(next, r).Idle?
  {
    Fetching(s, r, CheckValidity);
  }

  /** Whether the page of a search is stored: a first one is, and a continuation unless the entry
      belongs to another traversal or generation. */
  predicate Stores(s: State, scope: nat, continuation: bool, uidNext: nat) {
    continuation && scope in s.scoped ==>
      s.scoped[scope].index.uidValidity == s.server && s.scoped[scope].uidNext == uidNext
  }

  /** What the entry and the index hold after a search that stored its page. */
  ghost predicate SearchStored(s: State, next: State, request: Request, whole: bool, replaced: set<int>,
                               expired: set<int>)
    requires request.SearchList?
  {
    var scope := request.scope;
    var joining := request.continuation && scope in s.scoped;
    var current := s.index.Some? && s.index.value.uidValidity == s.server;
    && scope in next.scoped && next.scoped[scope].uidNext == request.uidNext
    && next.scoped[scope].index.uidValidity == s.server
    && (forall x :: x in next.scoped[scope].index.items
                    <==> (x.uid in request.uids && x.under == s.server)
                         || (joining && x in s.scoped[scope].index.items))
    && (forall other :: other != scope ==>
          && (other in next.scoped <==> other in s.scoped)
          && (other in s.scoped ==> next.scoped[other] == s.scoped[other]))
    && next.index.Some? && next.index.value.uidValidity == s.server
    && (forall x :: x in next.index.value.items
                    <==> x.uid !in expired
                         && ((x.uid in request.uids && x.under == s.server)
                             || (current && x in s.index.value.items && (whole ==> x.uid !in replaced))
                             || (current && whole && joining && x in s.scoped[scope].index.items)))
  }

  lemma {:induction false} SearchWrites(s: State, r: nat, request: Request)
    requires ReaderOf(s, r).Idle? && s.server > 0 && request.SearchList?
    requires Stores(s, request.scope, request.continuation, request.uidNext)
    ensures var next := Fetch(s, r, request);
            var page := set uid | uid in request.uids :: Item(uid, s.server);
            var before := if request.continuation && request.scope in s.scoped then s.scoped[request.scope].index.items
                          else {};
            && next.row == Some(s.server) && next.bodies == s.bodies && next.index == s.index && next.served == s.served
            && next.scoped == s.scoped[request.scope := Scoped(Index(s.server, before + page), request.uidNext)]
            && ReaderOf(next, r) == EntryWritten(s.server, page, before + page)
  {
    Fetching(s, r, request);
    assert {} + ItemsOf(request.uids, s.server) == ItemsOf(request.uids, s.server);
  }

  lemma {:induction false} SearchIndexes(s: State, r: nat, request: Request, whole: bool, replaced: set<int>,
                                         expired: set<int>)
    requires ReaderOf(s, r).Idle? && s.server > 0 && request.SearchList?
    requires Stores(s, request.scope, request.continuation, request.uidNext)
    ensures var next := Step(Fetch(s, r, request), WriteIndex(r, whole, replaced, expired));
            && SearchStored(s, next, request, whole, replaced, expired)
            && next.row == Some(s.server) && next.bodies == s.bodies && next.served == s.served
            && ReaderOf(next, r).Idle?
  {
    SearchWrites(s, r, request);
  }

  lemma {:induction false} ServesBack(s: State, r: nat, scope: nat)
    requires ReaderOf(s, r).Idle?
    requires scope in s.scoped && s.row == Some(s.scoped[scope].index.uidValidity)
    requires s.index.Some? && s.row == Some(s.index.value.uidValidity)
    ensures Step(Step(s, ReadScoped(r, scope)), ServeIndex(r)).served
            == s.served + [Served(s.row.value, s.scoped[scope].index.items)]
    ensures Step(Step(s, ReadIndex(r)), ServeIndex(r)).served == s.served + [Served(s.row.value, s.index.value.items)]
  {
  }

  /** A search that stores its page updates entry and index, and both are served back. */
  lemma {:induction false} SearchedIsServed(s: State, r: nat, request: Request, whole: bool, replaced: set<int>,
                                            expired: set<int>)
    requires ReaderOf(s, r).Idle? && s.server > 0 && request.SearchList?
    requires Stores(s, request.scope, request.continuation, request.uidNext)
    ensures var next := Step(Fetch(s, r, request), WriteIndex(r, whole, replaced, expired));
            var scoped := Step(Step(next, ReadScoped(r, request.scope)), ServeIndex(r));
            var index := Step(Step(next, ReadIndex(r)), ServeIndex(r));
            && SearchStored(s, next, request, whole, replaced, expired)
            && scoped.served == s.served + [Served(s.server, next.scoped[request.scope].index.items)]
            && index.served == s.served + [Served(s.server, next.index.value.items)]
  {
    SearchIndexes(s, r, request, whole, replaced, expired);
    ServesBack(Step(Fetch(s, r, request), WriteIndex(r, whole, replaced, expired)), r, request.scope);
  }

  /** One that does not leaves entry and index. */
  lemma {:induction false} RejectedWritesNothing(s: State, r: nat, request: Request, whole: bool, replaced: set<int>,
                                                 expired: set<int>)
    requires ReaderOf(s, r).Idle? && s.server > 0 && request.SearchList?
    requires !Stores(s, request.scope, request.continuation, request.uidNext)
    ensures var next := Step(Fetch(s, r, request), WriteIndex(r, whole, replaced, expired));
            && next.row == Some(s.server) && next.bodies == s.bodies && next.index == s.index
            && next.scoped == s.scoped && next.served == s.served && ReaderOf(next, r).Idle?
  {
    Fetching(s, r, request);
  }

  /** A reader that finds another generation committed since its snapshot, or read a zero one,
      gives up and writes nothing. */
  lemma {:induction false} LateReaderWritesNothing(s: State, r: nat)
    requires ReaderOf(s, r).Fetched? && (s.row != ReaderOf(s, r).snapshot || ReaderOf(s, r).under == 0)
    ensures Step(Step(s, Commit(r)), WriteCache(r)) == s.(readers := s.readers[r := Idle])
  {
  }

  /** A lookup whose list is of another generation than the one committed, or whose body is not
      there, serves nothing. */
  lemma {:induction false} OutdatedIsNotServed(s: State, r: nat, uid: int)
    ensures ReaderOf(s, r).IndexRead?
            && (ReaderOf(s, r).index.None? || s.row != Some(ReaderOf(s, r).index.value.uidValidity))
            ==> Step(s, ServeIndex(r)) == s.(readers := s.readers[r := Idle])
    ensures ReaderOf(s, r).GenerationRead?
            && (ReaderOf(s, r).generation.None? || BodyKey(ReaderOf(s, r).generation.value, uid) !in s.bodies)
            ==> Step(s, ServeBody(r, uid)) == s.(readers := s.readers[r := Idle])
  {
  }

  /** A run begins with an empty cache and goes on step by step. */
  lemma {:induction false} RunsStepByStep(uidValidity: nat, events: seq<Event>, e: Event)
    ensures var first := Run(uidValidity, []);
            && first.server == uidValidity && first.row == None && first.bodies == map[] && first.index == None
            && first.scoped == map[] && first.readers == map[] && first.served == []
    ensures Run(uidValidity, events + [e]) == Step(Run(uidValidity, events), e)
  {
    assert (events + [e])[..|events|] == events;
  }

  /** The server renumbers upwards at any time; a reader begins nothing new before it is done. */
  lemma {:induction false} OthersGoOn(s: State, v: nat, r: nat)
    ensures v >= s.server ==> Step(s, Renumber(v)) == s.(server := v)
    ensures !ReaderOf(s, r).Idle? ==>
              Step(s, TakeSnapshot(r)) == s && Step(s, ReadGeneration(r)) == s && Step(s, ReadIndex(r)) == s
  {
  }

  /** The cached generation of one mailbox, and the transaction that commits a new one. */
  class GenerationRow {
    var row: Option<nat>

    constructor ()
      ensures row == None
    {
      row := None;
    }

    method CommitMailboxUidValidity(snapshot: Option<nat>, uidValidity: nat) returns (committed: bool)
      modifies this
      ensures committed <==> uidValidity > 0 && old(row) == snapshot
      ensures row == if committed then Some(uidValidity) else old(row)
      ensures committed == CommitRow(old(row), snapshot, uidValidity).Some?
    {
      if uidValidity == 0 {
        return false;
      }
      if row.Some? != snapshot.Some? {
        return false;
      }
      if row.Some? && row.value != snapshot.value {
        return false;
      }
      row := Some(uidValidity);
      return true;
    }
  }
}
