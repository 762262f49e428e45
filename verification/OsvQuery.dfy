/**
 Batched queries to the OSV service (internal/threats/osv.go). Dependencies are queried in chunks, the
 vulnerability ids of all answers are deduplicated, their records are fetched concurrently, and each
 dependency gets the records of its own ids back.
 */
module OsvQuery {
  import opened Wrappers
  import Text

  datatype Dependency = Dependency(ecosystem: string, name: string, version: string, sourceFile: string)

  datatype Query = Query(name: string, ecosystem: string, version: string)

  /** The record's id and the rest of it. */
  datatype Advisory = Advisory(id: string, body: string)

  datatype QueryHit = QueryHit(dependency: Dependency, advisory: Advisory)

  /** One POST: the id lists of a chunk, or an error. */
  type BatchServer = seq<Query> -> Option<seq<seq<string>>>

  /** One GET: the record of an id, or an error. */
  type RecordServer = string -> Option<Advisory>

  const MAX_BATCH_SIZE: nat := 1000

  function OsvEcosystem(ecosystem: string): string {
    if ecosystem == "npm" then "npm"
    else if ecosystem == "go" then "Go"
    else if ecosystem == "pip" then "PyPI"
    else if ecosystem == "cargo" then "crates.io"
    else ""
  }

  predicate Queryable(d: Dependency) {
    Text.Trim(d.name) != "" && Text.Trim(d.version) != "" && OsvEcosystem(d.ecosystem) != ""
  }

  function QueryOf(d: Dependency): Query {
    Query(d.name, OsvEcosystem(d.ecosystem), d.version)
  }

  function Queries(deps: seq<Dependency>): (qs: seq<Query>)
    ensures |qs| == |deps|
  {
    seq(|deps|, i requires 0 <= i < |deps| => QueryOf(deps[i]))
  }

  function KeepQueryable(deps: seq<Dependency>): seq<Dependency> {
    if deps == [] then []
    else
      var last := deps[|deps| - 1];
      KeepQueryable(deps[..|deps| - 1]) + if Queryable(last) then [last] else []
  }

  function Flatten<T>(parts: seq<seq<T>>): seq<T> {
    if parts == [] then [] else Flatten(parts[..|parts| - 1]) + parts[|parts| - 1]
  }

  // ---------------------------------------------------------------- chunks

  /** The chunks of `s` from index `i` on. */
  function Chunks<T>(s: seq<T>, i: nat, size: nat): seq<seq<T>>
    requires size > 0
    decreases |s| - i
  {
    if i >= |s| then [] else [s[i..if i + size > |s| then |s| else i + size]] + Chunks(s, i + size, size)
  }

  method ChunkDeps(deps: seq<Dependency>, size: nat) returns (chunks: seq<seq<Dependency>>)
    requires size > 0
    ensures chunks == Chunks(deps, 0, size)
  {
    chunks := [];
    var i := 0;
    while i < |deps|
      invariant chunks + Chunks(deps, i, size) == Chunks(deps, 0, size)
      decreases |deps| - i
    {
      var end := i + size;
      if end > |deps| {
        end := |deps|;
      }
      Text.ConcatAssociative(chunks, [deps[i..end]], Chunks(deps, i + size, size));
      chunks := chunks + [deps[i..end]];
      i := i + size;
    }
  }

  lemma {:induction false} ChunksFlatten<T>(s: seq<T>, i: nat, size: nat)
    requires size > 0 && i <= |s|
    ensures Flatten(Chunks(s, i, size)) == s[i..]
    decreases |s| - i
  {
    if i + size < |s| {
      ChunksFlatten(s, i + size, size);
      FlattenCons(s[i..i + size], Chunks(s, i + size, size));
      assert s[i..] == s[i..i + size] + s[i + size..];
    } else if i < |s| {
      FlattenCons(s[i..], []);
      assert Chunks(s, i + size, size) == [] && s[i..|s|] == s[i..];
    }
  }

  lemma {:induction false} ChunkSizes<T>(s: seq<T>, i: nat, size: nat)
    requires size > 0
    ensures forall k :: 0 <= k < |Chunks(s, i, size)| ==> 0 < |Chunks(s, i, size)[k]| <= size
    ensures forall k :: 0 <= k < |Chunks(s, i, size)| - 1 ==> |Chunks(s, i, size)[k]| == size
    decreases |s| - i
  {
    if i < |s| {
      ChunkSizes(s, i + size, size);
    }
  }

  /** In order, nothing lost, none empty, every chunk but the last full. */
  lemma ChunksExact<T>(s: seq<T>, size: nat)
    requires size > 0
    ensures var c := Chunks(s, 0, size);
            && Flatten(c) == s
            && (forall k :: 0 <= k < |c| ==> 0 < |c[k]| <= size)
            && (forall k :: 0 <= k < |c| - 1 ==> |c[k]| == size)
  {
    ChunksFlatten(s, 0, size);
    ChunkSizes(s, 0, size);
  }

  lemma FlattenSnoc<T>(parts: seq<seq<T>>, part: seq<T>)
    ensures Flatten(parts + [part]) == Flatten(parts) + part
  {
    assert (parts + [part])[..|parts|] == parts;
  }

  lemma {:induction false} FlattenCons<T>(part: seq<T>, parts: seq<seq<T>>)
    ensures Flatten([part] + parts) == part + Flatten(parts)
  {
    if parts == [] {
      FlattenSnoc([], part);
      assert [part] + parts == [] + [part];
      assert part + [] == [] + part;
    } else {
      var init, last := parts[..|parts| - 1], parts[|parts| - 1];
      FlattenCons(part, init);
      Text.SplitLast(parts);
      Text.ConcatAssociative([part], init, [last]);
      FlattenSnoc([part] + init, last);
      Text.ConcatAssociative(part, Flatten(init), last);
    }
  }

  // ---------------------------------------------------------------- one batch

  /** Aligned with the chunk: what the server leaves out is empty, what it adds is ignored. */
  function Padded(results: seq<seq<string>>, n: nat): (r: seq<seq<string>>)
    ensures |r| == n
  {
    seq(n, i requires 0 <= i < n => if i < |results| then results[i] else [])
  }

  function BatchAnswer(server: BatchServer, chunk: seq<Dependency>): Option<seq<seq<string>>> {
    var reply := server(Queries(chunk));
    if reply.None? then None else Some(Padded(reply.value, |chunk|))
  }

  method QueryBatchIndexed(server: BatchServer, chunk: seq<Dependency>) returns (r: Option<seq<seq<string>>>)
    ensures r == BatchAnswer(server, chunk)
  {
    var queries := [];
    for i := 0 to |chunk|
      invariant queries == Queries(chunk[..i])
    {
      queries := queries + [QueryOf(chunk[i])];
    }
    assert chunk[..|chunk|] == chunk;
    var reply := server(queries);
    if reply.None? {
      return None;
    }
    var perQuery := Padded([], |chunk|);
    for i := 0 to |reply.value|
      invariant perQuery == Padded(reply.value[..i], |chunk|)
    {
      if i >= |chunk| {
        assert Padded(reply.value[..i], |chunk|) == Padded(reply.value, |chunk|);
        return Some(perQuery);
      }
      perQuery := perQuery[i := reply.value[i]];
    }
    assert reply.value[..|reply.value|] == reply.value;
    return Some(perQuery);
  }

  /** The id lists of all chunks, in order; the first error wins. */
  function Answers(server: BatchServer, chunks: seq<seq<Dependency>>): (r: Option<seq<seq<string>>>)
    ensures r.Some? ==> |r.value| == |Flatten(chunks)|
  {
    if chunks == [] then Some([])
    else
      var before, last := Answers(server, chunks[..|chunks| - 1]), BatchAnswer(server, chunks[|chunks| - 1]);
      if before.None? || last.None? then None else Some(before.value + last.value)
  }

  /** The server answers a query alike in every batch, up to trailing empty answers it leaves out. */
  ghost predicate Pointwise(server: BatchServer, ids: Query -> seq<string>) {
    forall qs: seq<Query> :: server(qs).Some? && Answered(server(qs).value, ids, qs)
  }

  ghost predicate Answered(results: seq<seq<string>>, ids: Query -> seq<string>, qs: seq<Query>) {
    forall i :: 0 <= i < |qs| ==> ids(qs[i]) == if i < |results| then results[i] else []
  }

  ghost function Mapped(ids: Query -> seq<string>, qs: seq<Query>): (r: seq<seq<string>>)
    ensures |r| == |qs|
  {
    seq(|qs|, i requires 0 <= i < |qs| => ids(qs[i]))
  }

  lemma PaddedIsMapped(results: seq<seq<string>>, ids: Query -> seq<string>, qs: seq<Query>)
    requires Answered(results, ids, qs)
    ensures Padded(results, |qs|) == Mapped(ids, qs)
  {
    forall i | 0 <= i < |qs| ensures Padded(results, |qs|)[i] == Mapped(ids, qs)[i] {
      assert ids(qs[i]) == if i < |results| then results[i] else [];
    }
  }

  lemma MappedConcat(ids: Query -> seq<string>, a: seq<Dependency>, b: seq<Dependency>)
    ensures Mapped(ids, Queries(a + b)) == Mapped(ids, Queries(a)) + Mapped(ids, Queries(b))
  {
  }

  /** Neither the chunk size nor short replies show: the answers are those of one query at a time. */
  lemma {:induction false} ChunksDoNotMatter(
    server: BatchServer, ids: Query -> seq<string>, chunks: seq<seq<Dependency>>)
    requires Pointwise(server, ids)
    ensures Answers(server, chunks) == Some(Mapped(ids, Queries(Flatten(chunks))))
  {
    if chunks != [] {
      var init, last := chunks[..|chunks| - 1], chunks[|chunks| - 1];
      ChunksDoNotMatter(server, ids, init);
      PaddedIsMapped(server(Queries(last)).value, ids, Queries(last));
      assert BatchAnswer(server, last) == Some(Mapped(ids, Queries(last)));
      MappedConcat(ids, Flatten(init), last);
    }
  }

  /** The whole call fails exactly when some batch does. */
  lemma {:induction false} AnyErrorFails(server: BatchServer, chunks: seq<seq<Dependency>>)
    ensures Answers(server, chunks).None? <==> exists k :: 0 <= k < |chunks| && server(Queries(chunks[k])).None?
  {
    if chunks != [] {
      var init := chunks[..|chunks| - 1];
      AnyErrorFails(server, init);
      assert forall k :: 0 <= k < |init| ==> init[k] == chunks[k];
    }
  }

  // ---------------------------------------------------------------- deduplication

  /** The first occurrence of every non-empty id, in order. */
  function Unique(ids: seq<string>): seq<string> {
    if ids == [] then []
    else
      var before, last := Unique(ids[..|ids| - 1]), ids[|ids| - 1];
      if last == "" || last in before then before else before + [last]
  }

  method Dedupe(ids: seq<string>) returns (r: seq<string>)
    ensures r == Unique(ids)
  {
    r := [];
    var seen: set<string> := {};
    for i := 0 to |ids|
      invariant r == Unique(ids[..i])
      invariant forall x :: x in seen <==> x in r
    {
      assert ids[..i + 1][..i] == ids[..i];
      if ids[i] == "" {
        continue;
      }
      if ids[i] in seen {
        continue;
      }
      seen := seen + {ids[i]};
      r := r + [ids[i]];
    }
    assert ids[..|ids|] == ids;
  }

  function FirstIndex(s: seq<string>, x: string): (k: nat)
    requires x in s
    ensures k < |s| && s[k] == x && x !in s[..k]
  {
    if s[0] == x then 0 else 1 + FirstIndex(s[1..], x)
  }

  lemma {:induction false} FirstIndexStays(s: seq<string>, y: string, x: string)
    requires x in s
    ensures FirstIndex(s + [y], x) == FirstIndex(s, x)
  {
    if s[0] != x {
      assert (s + [y])[1..] == s[1..] + [y];
      FirstIndexStays(s[1..], y, x);
    }
  }

  lemma {:induction false} FirstIndexNew(s: seq<string>, x: string)
    requires x !in s
    ensures FirstIndex(s + [x], x) == |s|
  {
    if s != [] {
      assert (s + [x])[1..] == s[1..] + [x];
      FirstIndexNew(s[1..], x);
    }
  }

  /** Ordered by first occurrence in `ids`. */
  ghost predicate InOrder(ids: seq<string>, u: seq<string>)
    requires forall x :: x in u ==> x in ids
  {
    forall i, j :: 0 <= i < j < |u| ==> FirstIndex(ids, u[i]) < FirstIndex(ids, u[j])
  }

  lemma InOrderSnoc(ids: seq<string>, u: seq<string>, y: string)
    requires (forall x :: x in u ==> x in ids) && InOrder(ids, u)
    ensures InOrder(ids + [y], u)
    ensures y !in ids ==> InOrder(ids + [y], u + [y])
  {
    forall k | 0 <= k < |u| ensures FirstIndex(ids + [y], u[k]) == FirstIndex(ids, u[k]) {
      FirstIndexStays(ids, y, u[k]);
    }
    if y !in ids {
      FirstIndexNew(ids, y);
    }
  }

  lemma UniqueSnoc(ids: seq<string>, id: string)
    ensures Unique(ids + [id]) == if id == "" || id in Unique(ids) then Unique(ids) else Unique(ids) + [id]
  {
    assert (ids + [id])[..|ids|] == ids;
  }

  lemma {:induction false} UniqueMembers(ids: seq<string>)
    ensures forall x :: x in Unique(ids) <==> x in ids && x != ""
  {
    if ids != [] {
      UniqueMembers(ids[..|ids| - 1]);
      Text.SplitLast(ids);
    }
  }

  /** Exactly the non-empty ids, each once, ordered by where each first occurs. */
  lemma {:induction false} UniqueExact(ids: seq<string>)
    ensures forall x :: x in Unique(ids) <==> x in ids && x != ""
    ensures InOrder(ids, Unique(ids))
  {
    UniqueMembers(ids);
    if ids != [] {
      var init, last := ids[..|ids| - 1], ids[|ids| - 1];
      Text.SplitLast(ids);
      UniqueExact(init);
      UniqueSnoc(init, last);
      InOrderSnoc(init, Unique(init), last);
    }
  }

  // ---------------------------------------------------------------- fetching the records

  /** The records of the ids that can be fetched. */
  function Fetched(server: RecordServer, ids: seq<string>): seq<Advisory> {
    if ids == [] then []
    else
      var a := server(ids[|ids| - 1]);
      Fetched(server, ids[..|ids| - 1]) + if a.Some? then [a.value] else []
  }

  lemma {:induction false} FetchedConcat(server: RecordServer, a: seq<string>, b: seq<string>)
    ensures Fetched(server, a + b) == Fetched(server, a) + Fetched(server, b)
  {
    if b == [] {
      assert a + b == a;
    } else {
      FetchedConcat(server, a, b[..|b| - 1]);
      assert (a + b)[..|a + b| - 1] == a + b[..|b| - 1];
    }
  }

  lemma FetchedOne(server: RecordServer, id: string)
    ensures Fetched(server, [id]) == if server(id).Some? then [server(id).value] else []
  {
    assert [id][..0] == [];
    assert Fetched(server, []) == [];
  }

  lemma FetchedRemove(server: RecordServer, ids: seq<string>, i: nat)
    requires i < |ids|
    ensures multiset(Fetched(server, ids)) == multiset(Fetched(server, ids[..i] + ids[i + 1..]))
              + (if server(ids[i]).Some? then multiset{server(ids[i]).value} else multiset{})
  {
    var before, after := ids[..i], ids[i + 1..];
    assert ids == before + ([ids[i]] + after);
    FetchedConcat(server, before, [ids[i]] + after);
    FetchedConcat(server, [ids[i]], after);
    FetchedConcat(server, before, after);
    FetchedOne(server, ids[i]);
    MoveFirst(Fetched(server, before), Fetched(server, [ids[i]]), Fetched(server, after));
  }

  lemma MoveFirst<T>(a: seq<T>, b: seq<T>, c: seq<T>)
    ensures multiset(a + (b + c)) == multiset(a + c) + multiset(b)
  {
  }

  /** Requests complete in any order; the result holds every record that could be fetched, in that order. */
  method Hydrate(server: RecordServer, ids: seq<string>) returns (out: seq<Advisory>)
    ensures multiset(out) == multiset(Fetched(server, ids))
  {
    out := [];
    var running := ids;
    while running != []
      invariant multiset(out) + multiset(Fetched(server, running)) == multiset(Fetched(server, ids))
      decreases |running|
    {
      var i :| 0 <= i < |running|;
      Completed(server, running, i, out);
      var a := server(running[i]);
      if a.Some? {
        out := out + [a.value];
      }
      running := running[..i] + running[i + 1..];
    }
  }

  /** A request that completes moves its record from what is running to the result. */
  lemma Completed(server: RecordServer, running: seq<string>, i: nat, out: seq<Advisory>)
    requires i < |running|
    ensures var a, rest := server(running[i]), Fetched(server, running[..i] + running[i + 1..]);
            multiset(if a.Some? then out + [a.value] else out) + multiset(rest)
            == multiset(out) + multiset(Fetched(server, running))
  {
    FetchedRemove(server, running, i);
  }

  ghost predicate KeepsIds(server: RecordServer) {
    forall id :: server(id).Some? ==> server(id).value.id == id
  }

  lemma {:induction false} FetchedAre(server: RecordServer, ids: seq<string>)
    ensures forall a :: a in Fetched(server, ids) <==> exists id :: id in ids && server(id) == Some(a)
  {
    if ids != [] {
      FetchedAre(server, ids[..|ids| - 1]);
      Text.SplitLast(ids);
    }
  }

  /** The map does not depend on the order of completion. */
  ghost predicate ById(server: RecordServer, ids: seq<string>, byId: map<string, Advisory>) {
    forall id :: && (id in byId <==> id in ids && server(id).Some?)
                 && (id in byId ==> server(id) == Some(byId[id]))
  }

  /** Of records with one id the one that came last is kept. */
  function Indexed(hydrated: seq<Advisory>): map<string, Advisory> {
    if hydrated == [] then map[]
    else
      var last := hydrated[|hydrated| - 1];
      Indexed(hydrated[..|hydrated| - 1])[last.id := last]
  }

  method IndexById(hydrated: seq<Advisory>) returns (byId: map<string, Advisory>)
    ensures byId == Indexed(hydrated)
  {
    byId := map[];
    for i := 0 to |hydrated|
      invariant byId == Indexed(hydrated[..i])
    {
      assert hydrated[..i + 1][..i] == hydrated[..i];
      byId := byId[hydrated[i].id := hydrated[i]];
    }
    assert hydrated[..|hydrated|] == hydrated;
  }

  lemma {:induction false} IndexedAre(hydrated: seq<Advisory>)
    ensures forall id :: id in Indexed(hydrated) ==>
              Indexed(hydrated)[id].id == id && Indexed(hydrated)[id] in hydrated
    ensures forall a :: a in hydrated ==> a.id in Indexed(hydrated)
  {
    if hydrated != [] {
      IndexedAre(hydrated[..|hydrated| - 1]);
      Text.SplitLast(hydrated);
    }
  }

  /** When records keep their ids the map holds each fetched record under the id asked for. */
  lemma {:induction false} IndexExact(hydrated: seq<Advisory>, server: RecordServer, ids: seq<string>)
    requires KeepsIds(server) && multiset(hydrated) == multiset(Fetched(server, ids))
    ensures ById(server, ids, Indexed(hydrated))
  {
    IndexedAre(hydrated);
    FetchedAre(server, ids);
    SameMembers(hydrated, Fetched(server, ids));
    forall id | id in ids && server(id).Some? ensures id in Indexed(hydrated) {
      assert server(id).value in hydrated;
    }
  }

  /** Every order of completion gives the same map. */
  ghost predicate OrderFree(records: seq<Advisory>) {
    forall order :: multiset(order) == multiset(records) ==> Indexed(order) == Indexed(records)
  }

  /** No two records share an id and differ. */
  ghost predicate IdsDetermine(records: seq<Advisory>) {
    forall a, b :: a in records && b in records && a.id == b.id ==> a == b
  }

  lemma {:induction false} DeterminedIsOrderFree(records: seq<Advisory>, order: seq<Advisory>)
    requires IdsDetermine(records) && multiset(order) == multiset(records)
    ensures Indexed(order) == Indexed(records)
  {
    SameMembers(order, records);
    IndexedAre(order);
    IndexedAre(records);
  }

  lemma WithoutOne<T>(s: seq<T>, x: T) returns (r: seq<T>)
    requires x in s
    ensures multiset(s) == multiset(r) + multiset{x}
  {
    var i :| 0 <= i < |s| && s[i] == x;
    r := s[..i] + s[i + 1..];
    assert s == s[..i] + [x] + s[i + 1..];
  }

  lemma WithoutTwo<T>(s: seq<T>, x: T, y: T) returns (r: seq<T>)
    requires x in s && y in s && x != y
    ensures multiset(s) == multiset(r) + multiset{x} + multiset{y}
  {
    var some := WithoutOne(s, x);
    assert y in multiset(s) && multiset(s)[y] == multiset(some)[y];
    r := WithoutOne(some, y);
  }

  lemma IndexedLast(before: seq<Advisory>, a: Advisory)
    ensures Indexed(before + [a]) == Indexed(before)[a.id := a]
  {
    assert (before + [a])[..|before|] == before;
  }

  lemma TwoMore<T>(s: seq<T>, x: T, y: T)
    ensures multiset(s + [x] + [y]) == multiset(s) + multiset{x} + multiset{y}
  {
  }

  /** Which of the two comes last decides. */
  lemma LastDecides(others: seq<Advisory>, a: Advisory, b: Advisory)
    requires a != b && a.id == b.id
    ensures Indexed(others + [a] + [b]) != Indexed(others + [b] + [a])
  {
    IndexedLast(others + [a], b);
    IndexedLast(others + [b], a);
    assert Indexed(others + [a] + [b])[a.id] == b;
  }

  lemma {:induction false} TwoOrders(records: seq<Advisory>, p: seq<Advisory>, q: seq<Advisory>)
    requires multiset(p) == multiset(records) == multiset(q) && Indexed(p) != Indexed(q)
    ensures !OrderFree(records)
  {
  }

  lemma {:induction false} DifferentRecordsRace(records: seq<Advisory>, a: Advisory, b: Advisory)
    requires a in records && b in records && a != b && a.id == b.id
    ensures !OrderFree(records)
  {
    var others := WithoutTwo(records, a, b);
    TwoMore(others, a, b);
    TwoMore(others, b, a);
    LastDecides(others, a, b);
    TwoOrders(records, others + [a] + [b], others + [b] + [a]);
  }

  /**
   The map by id is the same for every order in which requests complete exactly when no two fetched records
   share an id and differ.
   */
  lemma {:induction false} RenamedRecordsRace(server: RecordServer, ids: seq<string>)
    ensures OrderFree(Fetched(server, ids)) <==> IdsDetermine(Fetched(server, ids))
  {
    var records := Fetched(server, ids);
    if IdsDetermine(records) {
      forall order | multiset(order) == multiset(records) ensures Indexed(order) == Indexed(records) {
        DeterminedIsOrderFree(records, order);
      }
    } else {
      var a, b :| a in records && b in records && a.id == b.id && a != b;
      DifferentRecordsRace(records, a, b);
    }
  }

  lemma SameMembers<T>(a: seq<T>, b: seq<T>)
    requires multiset(a) == multiset(b)
    ensures forall x :: x in a <==> x in b
  {
    forall x ensures x in a <==> x in b {
      assert x in a <==> x in multiset(a);
      assert x in b <==> x in multiset(b);
    }
  }

  // ---------------------------------------------------------------- the hits

  /** What one dependency gets for its ids, in order. */
  function HitsOf(server: RecordServer, dep: Dependency, ids: seq<string>): seq<QueryHit> {
    if ids == [] then []
    else
      var a := server(ids[|ids| - 1]);
      HitsOf(server, dep, ids[..|ids| - 1]) + if a.Some? && ids[|ids| - 1] != "" then [QueryHit(dep, a.value)] else []
  }

  function AllHits(server: RecordServer, deps: seq<Dependency>, perQuery: seq<seq<string>>): seq<QueryHit>
    requires |deps| == |perQuery|
  {
    if deps == [] then []
    else
      var n := |deps| - 1;
      AllHits(server, deps[..n], perQuery[..n]) + HitsOf(server, deps[n], perQuery[n])
  }

  method CollectHits(ghost server: RecordServer, byId: map<string, Advisory>, dep: Dependency, ids: seq<string>)
    returns (out: seq<QueryHit>)
    ensures (forall id :: id in ids && id != "" ==> (id in byId <==> server(id).Some?)) && "" !in byId
            && (forall id :: id in byId ==> server(id) == Some(byId[id]))
            ==> out == HitsOf(server, dep, ids)
  {
    out := [];
    for i := 0 to |ids|
      invariant (forall id :: id in ids && id != "" ==> (id in byId <==> server(id).Some?)) && "" !in byId
                && (forall id :: id in byId ==> server(id) == Some(byId[id]))
                ==> out == HitsOf(server, dep, ids[..i])
    {
      assert ids[..i + 1][..i] == ids[..i];
      if ids[i] !in byId {
        continue;
      }
      out := out + [QueryHit(dep, byId[ids[i]])];
    }
    assert ids[..|ids|] == ids;
  }

  lemma {:induction false} FlattenMember<T>(parts: seq<seq<T>>, i: nat, x: T)
    requires i < |parts| && x in parts[i]
    ensures x in Flatten(parts)
  {
    if i < |parts| - 1 {
      FlattenMember(parts[..|parts| - 1], i, x);
    }
  }

  lemma ByIdCovers(server: RecordServer, perQuery: seq<seq<string>>, byId: map<string, Advisory>, i: nat)
    requires ById(server, Unique(Flatten(perQuery)), byId) && i < |perQuery|
    ensures forall id :: id in perQuery[i] && id != "" ==> (id in byId <==> server(id).Some?)
    ensures "" !in byId && forall id :: id in byId ==> server(id) == Some(byId[id])
  {
    UniqueMembers(Flatten(perQuery));
    forall id | id in perQuery[i] ensures id in Flatten(perQuery) {
      FlattenMember(perQuery, i, id);
    }
  }

  /** The id list of every queryable dependency, in order. */
  function AllAnswers(batches: BatchServer, deps: seq<Dependency>): (r: Option<seq<seq<string>>>)
    ensures r.Some? ==> |r.value| == |KeepQueryable(deps)|
  {
    ChunksFlatten(KeepQueryable(deps), 0, MAX_BATCH_SIZE);
    Answers(batches, Chunks(KeepQueryable(deps), 0, MAX_BATCH_SIZE))
  }

  method QueryBatchWithDeps(batches: BatchServer, records: RecordServer, deps: seq<Dependency>)
    returns (r: Option<seq<QueryHit>>)
    ensures var answers := AllAnswers(batches, deps);
            && (r.None? <==> answers.None?)
            && (KeepsIds(records) && r.Some? ==> r.value == AllHits(records, KeepQueryable(deps), answers.value))
  {
    ChunksFlatten(KeepQueryable(deps), 0, MAX_BATCH_SIZE);
    var queryable := [];
    for i := 0 to |deps|
      invariant queryable == KeepQueryable(deps[..i])
    {
      assert deps[..i + 1][..i] == deps[..i];
      if Queryable(deps[i]) {
        queryable := queryable + [deps[i]];
      }
    }
    assert deps[..|deps|] == deps;
    var chunks := ChunkDeps(queryable, MAX_BATCH_SIZE);
    var perQuery := AskAll(batches, chunks);
    if perQuery.None? {
      return None;
    }
    var hits := HydrateAll(records, queryable, perQuery.value);
    return Some(hits);
  }

  method AskAll(server: BatchServer, chunks: seq<seq<Dependency>>) returns (r: Option<seq<seq<string>>>)
    ensures r == Answers(server, chunks)
  {
    var perQuery := [];
    for i := 0 to |chunks|
      invariant Answers(server, chunks[..i]) == Some(perQuery)
    {
      assert chunks[..i + 1][..i] == chunks[..i];
      var answer := QueryBatchIndexed(server, chunks[i]);
      if answer.None? {
        ErrorStays(server, chunks, i);
        return None;
      }
      perQuery := perQuery + answer.value;
    }
    assert chunks[..|chunks|] == chunks;
    return Some(perQuery);
  }

  lemma ErrorStays(server: BatchServer, chunks: seq<seq<Dependency>>, i: nat)
    requires i < |chunks| && BatchAnswer(server, chunks[i]).None?
    ensures Answers(server, chunks).None?
  {
    AnyErrorFails(server, chunks);
  }

  method HydrateAll(records: RecordServer, deps: seq<Dependency>, perQuery: seq<seq<string>>)
    returns (hits: seq<QueryHit>)
    requires |deps| == |perQuery|
    ensures KeepsIds(records) ==> hits == AllHits(records, deps, perQuery)
  {
    var flat := FlattenIds(perQuery);
    var unique := Dedupe(flat);
    var hydrated := Hydrate(records, unique);
    var byId := IndexById(hydrated);
    if KeepsIds(records) {
      IndexExact(hydrated, records, unique);
    }
    hits := [];
    for i := 0 to |deps|
      invariant KeepsIds(records) ==> hits == AllHits(records, deps[..i], perQuery[..i])
    {
      assert deps[..i + 1][..i] == deps[..i] && perQuery[..i + 1][..i] == perQuery[..i];
      if KeepsIds(records) {
        ByIdCovers(records, perQuery, byId, i);
      }
      var more := CollectHits(records, byId, deps[i], perQuery[i]);
      hits := hits + more;
    }
    assert deps[..|deps|] == deps && perQuery[..|perQuery|] == perQuery;
  }

  method FlattenIds(perQuery: seq<seq<string>>) returns (flat: seq<string>)
    ensures flat == Flatten(perQuery)
  {
    flat := [];
    for i := 0 to |perQuery|
      invariant flat == Flatten(perQuery[..i])
    {
      assert perQuery[..i + 1][..i] == perQuery[..i];
      flat := flat + perQuery[i];
    }
    assert perQuery[..|perQuery|] == perQuery;
  }

  // ---------------------------------------------------------------- one dependency at a time

  /** Asking for each dependency alone. */
  ghost function OneAtATime(ids: Query -> seq<string>, records: RecordServer, deps: seq<Dependency>): seq<QueryHit> {
    if deps == [] then []
    else
      var last := deps[|deps| - 1];
      OneAtATime(ids, records, deps[..|deps| - 1])
      + if Queryable(last) then HitsOf(records, last, ids(QueryOf(last))) else []
  }

  lemma TakeBack<T>(s: seq<T>, x: T)
    ensures (s + [x])[..|s|] == s
  {
  }

  lemma AllHitsSnoc(records: RecordServer, deps: seq<Dependency>, perQuery: seq<seq<string>>, d: Dependency,
                    ids: seq<string>)
    requires |deps| == |perQuery|
    ensures AllHits(records, deps + [d], perQuery + [ids]) == AllHits(records, deps, perQuery) + HitsOf(records, d, ids)
  {
    var n := |deps|;
    assert (deps + [d])[n] == d && (perQuery + [ids])[n] == ids;
    TakeBack(deps, d);
    TakeBack(perQuery, ids);
  }

  lemma MappedSnoc(ids: Query -> seq<string>, deps: seq<Dependency>, d: Dependency)
    ensures Mapped(ids, Queries(deps + [d])) == Mapped(ids, Queries(deps)) + [ids(QueryOf(d))]
  {
  }

  lemma {:induction false} HitsOneByOne(ids: Query -> seq<string>, records: RecordServer, deps: seq<Dependency>)
    ensures AllHits(records, KeepQueryable(deps), Mapped(ids, Queries(KeepQueryable(deps))))
         == OneAtATime(ids, records, deps)
  {
    if deps != [] {
      var init, last := deps[..|deps| - 1], deps[|deps| - 1];
      HitsOneByOne(ids, records, init);
      if Queryable(last) {
        var kept := KeepQueryable(init);
        assert KeepQueryable(deps) == kept + [last];
        MappedSnoc(ids, kept, last);
        AllHitsSnoc(records, kept, Mapped(ids, Queries(kept)), last, ids(QueryOf(last)));
      } else {
        assert KeepQueryable(deps) == KeepQueryable(init);
      }
    }
  }

  /**
   For a pointwise server whose records keep their ids, the batched query is the flat map of asking for
   each queryable dependency alone: no chunking, no short reply and no order of completion shows.
   */
  lemma {:induction false} BatchedEqualsOneAtATime(
    batches: BatchServer, ids: Query -> seq<string>, records: RecordServer, deps: seq<Dependency>)
    requires Pointwise(batches, ids)
    ensures var answers := AllAnswers(batches, deps);
            && answers.Some?
            && AllHits(records, KeepQueryable(deps), answers.value) == OneAtATime(ids, records, deps)
  {
    var chunks := Chunks(KeepQueryable(deps), 0, MAX_BATCH_SIZE);
    ChunksFlatten(KeepQueryable(deps), 0, MAX_BATCH_SIZE);
    ChunksDoNotMatter(batches, ids, chunks);
    HitsOneByOne(ids, records, deps);
  }

  /** What OSV calls the ecosystems it is asked about. */
  const OSV_NAMES: map<string, string> := map["npm" := "npm", "go" := "Go", "pip" := "PyPI", "cargo" := "crates.io"]

  /** The dependency has a name and a version, its ecosystem is known, and the advisory is one of its ids' records. */
  ghost predicate Matched(ids: Query -> seq<string>, records: RecordServer, hit: QueryHit) {
    var d := hit.dependency;
    && !Text.Blank(d.name) && !Text.Blank(d.version) && d.ecosystem in OSV_NAMES
    && exists id :: id in ids(Query(d.name, OSV_NAMES[d.ecosystem], d.version)) && id != ""
                    && records(id) == Some(hit.advisory)
  }

  lemma QueryableMeans(d: Dependency)
    ensures Queryable(d) <==> !Text.Blank(d.name) && !Text.Blank(d.version) && d.ecosystem in OSV_NAMES
    ensures Queryable(d) ==> QueryOf(d) == Query(d.name, OSV_NAMES[d.ecosystem], d.version)
  {
    TrimIsEmpty(d.name);
    TrimIsEmpty(d.version);
  }

  lemma TrimIsEmpty(s: string)
    ensures Text.Trim(s) == "" <==> Text.Blank(s)
  {
    if Text.Blank(s) {
      Text.TrimBlank(s);
    }
    var lead, trail := Text.TrimSplits(s);
  }

  lemma {:induction false} HitsOfMembers(records: RecordServer, dep: Dependency, ids: seq<string>, hit: QueryHit)
    ensures hit in HitsOf(records, dep, ids)
       <==> hit.dependency == dep && exists id :: id in ids && id != "" && records(id) == Some(hit.advisory)
  {
    if ids != [] {
      HitsOfMembers(records, dep, ids[..|ids| - 1], hit);
      Text.SplitLast(ids);
    }
  }

  lemma {:induction false} OneAtATimeMembers(
    ids: Query -> seq<string>, records: RecordServer, deps: seq<Dependency>, hit: QueryHit)
    ensures hit in OneAtATime(ids, records, deps) <==> hit.dependency in deps && Matched(ids, records, hit)
  {
    if deps != [] {
      var init, last := deps[..|deps| - 1], deps[|deps| - 1];
      Text.SplitLast(deps);
      OneAtATimeMembers(ids, records, init, hit);
      QueryableMeans(last);
      if Queryable(last) {
        HitsOfMembers(records, last, ids(QueryOf(last)), hit);
      }
    }
  }

  /** For such a server a hit is found exactly when it is a match of one of the dependencies. */
  lemma {:induction false} HitsExactly(
    batches: BatchServer, ids: Query -> seq<string>, records: RecordServer, deps: seq<Dependency>, hit: QueryHit)
    requires Pointwise(batches, ids)
    ensures var answers := AllAnswers(batches, deps);
            && answers.Some?
            && (hit in AllHits(records, KeepQueryable(deps), answers.value)
                <==> hit.dependency in deps && Matched(ids, records, hit))
  {
    BatchedEqualsOneAtATime(batches, ids, records, deps);
    OneAtATimeMembers(ids, records, deps, hit);
  }

  /** No request asks more than a thousand queries, and none is empty. */
  lemma {:induction false} RequestsWithinLimit(deps: seq<Dependency>)
    ensures var chunks := Chunks(KeepQueryable(deps), 0, MAX_BATCH_SIZE);
            forall k :: 0 <= k < |chunks| ==> 0 < |Queries(chunks[k])| <= 1000
  {
    ChunksExact(KeepQueryable(deps), MAX_BATCH_SIZE);
  }

  // ---------------------------------------------------------------- Query

  /** The first hit of every advisory id but "". */
  function FirstHits(hits: seq<QueryHit>): seq<Advisory> {
    if hits == [] then []
    else
      var before, a := FirstHits(hits[..|hits| - 1]), hits[|hits| - 1].advisory;
      if a.id == "" || a.id in Ids(before) then before else before + [a]
  }

  function Ids(advisories: seq<Advisory>): (r: seq<string>)
    ensures |r| == |advisories|
  {
    seq(|advisories|, i requires 0 <= i < |advisories| => advisories[i].id)
  }

  method FirstOfEach(hits: seq<QueryHit>) returns (out: seq<Advisory>)
    ensures out == FirstHits(hits)
  {
    out := [];
    var seen: set<string> := {};
    for i := 0 to |hits|
      invariant out == FirstHits(hits[..i])
      invariant forall x :: x in seen <==> x in Ids(out)
    {
      assert hits[..i + 1][..i] == hits[..i];
      var a := hits[i].advisory;
      if a.id == "" {
        continue;
      }
      if a.id in seen {
        continue;
      }
      IdsSnoc(out, a);
      seen := seen + {a.id};
      out := out + [a];
    }
    assert hits[..|hits|] == hits;
  }

  lemma IdsSnoc(advisories: seq<Advisory>, a: Advisory)
    ensures Ids(advisories + [a]) == Ids(advisories) + [a.id]
  {
  }

  lemma FirstHitsSnoc(hits: seq<QueryHit>, h: QueryHit)
    ensures FirstHits(hits + [h]) == var before := FirstHits(hits);
              if h.advisory.id == "" || h.advisory.id in Ids(before) then before else before + [h.advisory]
  {
    assert (hits + [h])[..|hits|] == hits;
  }

  /** One more id of one dependency. */
  lemma HitToRecord(records: RecordServer, dep: Dependency, id: string, hits: seq<QueryHit>, flat: seq<string>)
    requires KeepsIds(records) && FirstHits(hits) == Fetched(records, Unique(flat))
    ensures FirstHits(hits + HitsOf(records, dep, [id])) == Fetched(records, Unique(flat + [id]))
  {
    var a := records(id);
    assert [id][..0] == [];
    UniqueSnoc(flat, id);
    FetchedSnoc(records, Unique(flat), id);
    if a.Some? && id != "" {
      assert HitsOf(records, dep, [id]) == [QueryHit(dep, a.value)];
      FirstHitsSnoc(hits, QueryHit(dep, a.value));
      KnownId(records, Unique(flat), id);
    } else {
      assert hits + HitsOf(records, dep, [id]) == hits;
    }
  }

  lemma HitsOfSnoc(records: RecordServer, dep: Dependency, ids: seq<string>, id: string)
    ensures HitsOf(records, dep, ids + [id]) == HitsOf(records, dep, ids) + HitsOf(records, dep, [id])
  {
    assert (ids + [id])[..|ids|] == ids && [id][..0] == [];
  }

  lemma {:induction false} HitsToRecords(
    records: RecordServer, dep: Dependency, ids: seq<string>, before: seq<QueryHit>, flat: seq<string>)
    requires KeepsIds(records) && FirstHits(before) == Fetched(records, Unique(flat))
    ensures FirstHits(before + HitsOf(records, dep, ids)) == Fetched(records, Unique(flat + ids))
  {
    if ids == [] {
      assert flat + ids == flat && before + HitsOf(records, dep, ids) == before;
    } else {
      var init, last := ids[..|ids| - 1], ids[|ids| - 1];
      Text.SplitLast(ids);
      HitsToRecords(records, dep, init, before, flat);
      HitToRecord(records, dep, last, before + HitsOf(records, dep, init), flat + init);
      HitsOfSnoc(records, dep, init, last);
      Text.ConcatAssociative(flat, init, [last]);
      Text.ConcatAssociative(before, HitsOf(records, dep, init), HitsOf(records, dep, [last]));
    }
  }

  lemma FetchedSnoc(server: RecordServer, ids: seq<string>, id: string)
    ensures Fetched(server, ids + [id]) == Fetched(server, ids) + if server(id).Some? then [server(id).value] else []
  {
    assert (ids + [id])[..|ids|] == ids;
  }

  lemma KnownId(server: RecordServer, ids: seq<string>, id: string)
    requires KeepsIds(server) && server(id).Some?
    ensures id in Ids(Fetched(server, ids)) <==> id in ids
  {
    FetchedAre(server, ids);
    var fetched := Fetched(server, ids);
    if id in ids {
      assert server(id).value in fetched;
      var k :| 0 <= k < |fetched| && fetched[k] == server(id).value;
      assert Ids(fetched)[k] == id;
    }
    if id in Ids(fetched) {
      var k :| 0 <= k < |fetched| && Ids(fetched)[k] == id;
      assert fetched[k] in fetched;
    }
  }

  lemma {:induction false} FirstHitsAreRecords(records: RecordServer, deps: seq<Dependency>, perQuery: seq<seq<string>>)
    requires KeepsIds(records) && |deps| == |perQuery|
    ensures FirstHits(AllHits(records, deps, perQuery)) == Fetched(records, Unique(Flatten(perQuery)))
  {
    if deps != [] {
      var n := |deps| - 1;
      FirstHitsAreRecords(records, deps[..n], perQuery[..n]);
      HitsToRecords(records, deps[n], perQuery[n], AllHits(records, deps[..n], perQuery[..n]), Flatten(perQuery[..n]));
    }
  }

  /** Query's answer: the records of the distinct non-empty ids the server named, in order of first mention. */
  method QueryAdvisories(batches: BatchServer, records: RecordServer, deps: seq<Dependency>)
    returns (r: Option<seq<Advisory>>)
    ensures var answers := AllAnswers(batches, deps);
            && (r.None? <==> answers.None?)
            && (KeepsIds(records) && r.Some? ==> r.value == Fetched(records, Unique(Flatten(answers.value))))
  {
    var hits := QueryBatchWithDeps(batches, records, deps);
    if hits.None? {
      return None;
    }
    var out := FirstOfEach(hits.value);
    if KeepsIds(records) {
      FirstHitsAreRecords(records, KeepQueryable(deps), AllAnswers(batches, deps).value);
    }
    return Some(out);
  }
}
