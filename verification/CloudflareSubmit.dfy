/** Submitting Cloudflare changes: classification into three parallel lists, chunking under a
    limit with three cursors, and replay of a rejected chunk call by call
    (provider/cloudflare/cloudflare_batch.go). */
module CloudflareSubmit {
  import opened Arithmetic
  import opened Wrappers
  import opened Sorting
  import opened Cloudflare

  const DEFAULT_BATCH_CHANGE_SIZE := 200

  /** The record types the batch PUT can express. */
  const BATCH_PUT_TYPES := ["A", "AAAA", "CNAME", "TXT", "MX", "NS"]

  /** The batch parameters, and beside them the changes they came from. */
  datatype Collections = Collections(
    deletes: seq<Id>, puts: seq<(Id, DnsRecord)>, posts: seq<DnsRecord>,
    deleteChanges: seq<Change>, updateChanges: seq<Change>, createChanges: seq<Change>,
    fallbackUpdates: seq<Change>)

  datatype Chunk = Chunk(
    deletes: seq<Id>, puts: seq<(Id, DnsRecord)>, posts: seq<DnsRecord>,
    deleteChanges: seq<Change>, updateChanges: seq<Change>, createChanges: seq<Change>)

  // ---- one ordered list behind the parallel ones ----

  function DelOps(ids: seq<Id>): (r: seq<Op>)
    ensures |r| == |ids|
  {
    seq(|ids|, k requires 0 <= k < |ids| => Del(ids[k]))
  }

  function PutOps(puts: seq<(Id, DnsRecord)>): (r: seq<Op>)
    ensures |r| == |puts|
  {
    seq(|puts|, k requires 0 <= k < |puts| => Put(puts[k].0, puts[k].1))
  }

  function PostOps(posts: seq<DnsRecord>): (r: seq<Op>)
    ensures |r| == |posts|
  {
    seq(|posts|, k requires 0 <= k < |posts| => Post(posts[k]))
  }

  /** The operations in the order the server executes them: deletes, puts, posts. */
  function AllOps(bc: Collections): seq<Op> {
    DelOps(bc.deletes) + PutOps(bc.puts) + PostOps(bc.posts)
  }

  function AllChanges(bc: Collections): seq<Change> {
    bc.deleteChanges + bc.updateChanges + bc.createChanges
  }

  function ChunkOps(ch: Chunk): seq<Op> {
    DelOps(ch.deletes) + PutOps(ch.puts) + PostOps(ch.posts)
  }

  function ChunkChanges(ch: Chunk): seq<Change> {
    ch.deleteChanges + ch.updateChanges + ch.createChanges
  }

  ghost predicate SameLengths(bc: Collections) {
    |bc.deletes| == |bc.deleteChanges| && |bc.puts| == |bc.updateChanges| && |bc.posts| == |bc.createChanges|
  }

  ghost predicate ChunkSameLengths(ch: Chunk) {
    |ch.deletes| == |ch.deleteChanges| && |ch.puts| == |ch.updateChanges| && |ch.posts| == |ch.createChanges|
  }

  // ---- chunking ----

  /** s cut into pieces of limit elements, the last one possibly shorter. */
  function Pieces<T>(s: seq<T>, limit: nat): seq<seq<T>>
    requires limit >= 1
  {
    if s == [] then []
    else if |s| <= limit then [s]
    else [s[..limit]] + Pieces(s[limit..], limit)
  }

  lemma {:induction false} PiecesConcat<T>(s: seq<T>, limit: nat)
    requires limit >= 1
    ensures Concat(Pieces(s, limit)) == s
    decreases |s|
  {
    if s != [] {
      if |s| <= limit {
        assert Concat([s]) == s + Concat([s][1..]);
      } else {
        PiecesConcat(s[limit..], limit);
        assert Pieces(s, limit)[1..] == Pieces(s[limit..], limit);
        assert s == s[..limit] + s[limit..];
      }
    }
  }

  /** There are ceiling(|s| / limit) pieces. */
  lemma {:induction false} PiecesCount<T>(s: seq<T>, limit: nat)
    requires limit >= 1
    ensures |Pieces(s, limit)| == (|s| + limit - 1) / limit
    decreases |s|
  {
    if s == [] {
      CeilingOfNone(limit);
    } else if |s| <= limit {
      CeilingOfOne(|s|, limit);
    } else {
      PiecesCount(s[limit..], limit);
      CeilingStep(|s| - limit, limit);
    }
  }

  /** Every piece but the last is full, and the last is not empty. */
  lemma {:induction false} PiecesShape<T>(s: seq<T>, limit: nat)
    requires limit >= 1
    ensures forall k | 0 <= k < |Pieces(s, limit)| ::
              if k < |Pieces(s, limit)| - 1 then |Pieces(s, limit)[k]| == limit else 0 < |Pieces(s, limit)[k]| <= limit
    decreases |s|
  {
    if |s| > limit {
      PiecesShape(s[limit..], limit);
      assert Pieces(s, limit) == [s[..limit]] + Pieces(s[limit..], limit);
    }
  }

  /** The operations of each chunk, in order. */
  function OpsPerChunk(chunks: seq<Chunk>): (r: seq<seq<Op>>)
    ensures |r| == |chunks|
  {
    seq(|chunks|, k requires 0 <= k < |chunks| => ChunkOps(chunks[k]))
  }

  function ChangesPerChunk(chunks: seq<Chunk>): (r: seq<seq<Change>>)
    ensures |r| == |chunks|
  {
    seq(|chunks|, k requires 0 <= k < |chunks| => ChunkChanges(chunks[k]))
  }

  /** The chunks are the pieces of the one ordered list, and the changes are cut at the
      same places. */
  ghost predicate IsChunking(bc: Collections, limit: nat, chunks: seq<Chunk>)
    requires limit >= 1
  {
    && OpsPerChunk(chunks) == Pieces(AllOps(bc), limit)
    && ChangesPerChunk(chunks) == Pieces(AllChanges(bc), limit)
    && forall k | 0 <= k < |chunks| :: ChunkSameLengths(chunks[k])
  }

  /** What is left once the cursors have reached di, ui and pi. */
  function Rest(bc: Collections, di: nat, ui: nat, pi: nat): Collections
    requires SameLengths(bc)
    requires di <= |bc.deletes| && ui <= |bc.puts| && pi <= |bc.posts|
  {
    Collections(bc.deletes[di..], bc.puts[ui..], bc.posts[pi..],
                bc.deleteChanges[di..], bc.updateChanges[ui..], bc.createChanges[pi..], [])
  }

  function Min(a: int, b: int): int {
    if a < b then a else b
  }

  /** Cutting three lists one after the other is cutting their concatenation once. */
  lemma CutThree<T>(x: seq<T>, y: seq<T>, z: seq<T>, a: nat, b: nat, c: nat)
    requires a <= |x| && b <= |y| && c <= |z|
    requires a < |x| ==> b == 0 && c == 0
    requires b < |y| ==> c == 0
    ensures (x + y + z)[..a + b + c] == x[..a] + y[..b] + z[..c]
    ensures (x + y + z)[a + b + c..] == x[a..] + y[b..] + z[c..]
  {
    if a < |x| {
      assert (x + y + z)[a..] == x[a..] + y + z;
      assert x[..a] + y[..b] + z[..c] == x[..a];
    } else if b < |y| {
      assert (x + y + z)[a + b..] == y[b..] + z;
    } else {
      assert x[..a] == x && y[..b] == y;
    }
  }

  lemma CutOps(bc: Collections, a: nat, b: nat, c: nat)
    requires SameLengths(bc)
    requires a <= |bc.deletes| && b <= |bc.puts| && c <= |bc.posts|
    requires a < |bc.deletes| ==> b == 0 && c == 0
    requires b < |bc.puts| ==> c == 0
    ensures AllOps(bc)[..a + b + c] == DelOps(bc.deletes[..a]) + PutOps(bc.puts[..b]) + PostOps(bc.posts[..c])
    ensures AllOps(bc)[a + b + c..] == AllOps(Rest(bc, a, b, c))
  {
    CutThree(DelOps(bc.deletes), PutOps(bc.puts), PostOps(bc.posts), a, b, c);
    assert DelOps(bc.deletes)[..a] == DelOps(bc.deletes[..a]) && DelOps(bc.deletes)[a..] == DelOps(bc.deletes[a..]);
    assert PutOps(bc.puts)[..b] == PutOps(bc.puts[..b]) && PutOps(bc.puts)[b..] == PutOps(bc.puts[b..]);
    assert PostOps(bc.posts)[..c] == PostOps(bc.posts[..c]) && PostOps(bc.posts)[c..] == PostOps(bc.posts[c..]);
  }

  /** chunk holds the first operations of bc, as many as fit, and rest the others. */
  ghost predicate Cuts(bc: Collections, limit: nat, chunk: Chunk, rest: Collections) {
    var n := Min(limit, |AllOps(bc)|);
    && ChunkSameLengths(chunk) && SameLengths(bc) && SameLengths(rest)
    && ChunkOps(chunk) == AllOps(bc)[..n] && AllOps(rest) == AllOps(bc)[n..]
    && ChunkChanges(chunk) == AllChanges(bc)[..n] && AllChanges(rest) == AllChanges(bc)[n..]
  }

  lemma CutSize(limit: nat, x: nat, y: nat, z: nat, a: nat, b: nat, c: nat)
    requires a == Min(limit, x) && b == Min(limit - a, y) && c == Min(limit - a - b, z)
    ensures a + b + c == Min(limit, x + y + z)
    ensures a < x ==> b == 0 && c == 0
    ensures b < y ==> c == 0
  {
  }

  function Head(bc: Collections, a: nat, b: nat, c: nat): Chunk
    requires SameLengths(bc)
    requires a <= |bc.deletes| && b <= |bc.puts| && c <= |bc.posts|
  {
    Chunk(bc.deletes[..a], bc.puts[..b], bc.posts[..c],
          bc.deleteChanges[..a], bc.updateChanges[..b], bc.createChanges[..c])
  }

  lemma CutsAt(bc: Collections, limit: nat, a: nat, b: nat, c: nat)
    requires SameLengths(bc)
    requires a == Min(limit, |bc.deletes|) && b == Min(limit - a, |bc.puts|) && c == Min(limit - a - b, |bc.posts|)
    ensures Cuts(bc, limit, Head(bc, a, b, c), Rest(bc, a, b, c))
  {
    hide DelOps, PutOps, PostOps;
    var chunk, rest, n := Head(bc, a, b, c), Rest(bc, a, b, c), Min(limit, |AllOps(bc)|);
    CutSize(limit, |bc.deletes|, |bc.puts|, |bc.posts|, a, b, c);
    assert |AllOps(bc)| == |bc.deletes| + |bc.puts| + |bc.posts|;
    assert n == a + b + c;
    assert ChunkOps(chunk) == AllOps(bc)[..n] && AllOps(rest) == AllOps(bc)[n..] by { CutOps(bc, a, b, c); }
    assert ChunkChanges(chunk) == AllChanges(bc)[..n] && AllChanges(rest) == AllChanges(bc)[n..] by {
      CutThree(bc.deleteChanges, bc.updateChanges, bc.createChanges, a, b, c);
    }
  }

  /** One turn of the loop in chunkBatchChanges: as many deletes as fit, then puts, then posts. */
  method NextChunk(bc: Collections, di: nat, ui: nat, pi: nat, limit: nat)
    returns (chunk: Chunk, di': nat, ui': nat, pi': nat)
    requires SameLengths(bc)
    requires di <= |bc.deletes| && ui <= |bc.puts| && pi <= |bc.posts|
    ensures di' == di + Min(limit, |bc.deletes| - di)
    ensures ui' == ui + Min(limit - (di' - di), |bc.puts| - ui)
    ensures pi' == pi + Min(limit - (di' - di) - (ui' - ui), |bc.posts| - pi)
    ensures chunk == Chunk(bc.deletes[di..di'], bc.puts[ui..ui'], bc.posts[pi..pi'],
                           bc.deleteChanges[di..di'], bc.updateChanges[ui..ui'], bc.createChanges[pi..pi'])
  {
    chunk := Chunk([], [], [], [], [], []);
    di', ui', pi' := di, ui, pi;
    var remaining := limit;
    if di < |bc.deletes| && remaining > 0 {
      var end := Min(di + remaining, |bc.deletes|);
      chunk := chunk.(deletes := bc.deletes[di..end], deleteChanges := bc.deleteChanges[di..end]);
      remaining := remaining - (end - di);
      di' := end;
    }
    if ui < |bc.puts| && remaining > 0 {
      var end := Min(ui + remaining, |bc.puts|);
      chunk := chunk.(puts := bc.puts[ui..end], updateChanges := bc.updateChanges[ui..end]);
      remaining := remaining - (end - ui);
      ui' := end;
    }
    if pi < |bc.posts| && remaining > 0 {
      var end := Min(pi + remaining, |bc.posts|);
      chunk := chunk.(posts := bc.posts[pi..end], createChanges := bc.createChanges[pi..end]);
      pi' := end;
    }
  }

  lemma NextCuts(bc: Collections, di: nat, ui: nat, pi: nat, di': nat, ui': nat, pi': nat, limit: nat, chunk: Chunk)
    requires SameLengths(bc)
    requires di <= di' <= |bc.deletes| && ui <= ui' <= |bc.puts| && pi <= pi' <= |bc.posts|
    requires di' == di + Min(limit, |bc.deletes| - di)
    requires ui' == ui + Min(limit - (di' - di), |bc.puts| - ui)
    requires pi' == pi + Min(limit - (di' - di) - (ui' - ui), |bc.posts| - pi)
    requires chunk == Chunk(bc.deletes[di..di'], bc.puts[ui..ui'], bc.posts[pi..pi'],
                            bc.deleteChanges[di..di'], bc.updateChanges[ui..ui'], bc.createChanges[pi..pi'])
    ensures Cuts(Rest(bc, di, ui, pi), limit, chunk, Rest(bc, di', ui', pi'))
  {
    hide Cuts, Min;
    var rest := Rest(bc, di, ui, pi);
    var a, b, c := di' - di, ui' - ui, pi' - pi;
    assert chunk == Head(rest, a, b, c);
    assert Rest(rest, a, b, c) == Rest(bc, di', ui', pi');
    CutsAt(rest, limit, a, b, c);
  }

  /** The chunks so far and the pieces of what is left make up the pieces of the whole. */
  ghost predicate Chunking(bc: Collections, limit: nat, chunks: seq<Chunk>, rest: Collections)
    requires limit >= 1
  {
    && OpsPerChunk(chunks) + Pieces(AllOps(rest), limit) == Pieces(AllOps(bc), limit)
    && ChangesPerChunk(chunks) + Pieces(AllChanges(rest), limit) == Pieces(AllChanges(bc), limit)
    && forall k | 0 <= k < |chunks| :: ChunkSameLengths(chunks[k])
  }

  lemma ChunkingStep(bc: Collections, limit: nat, chunks: seq<Chunk>, rest: Collections, chunk: Chunk, rest': Collections)
    requires limit >= 1 && Chunking(bc, limit, chunks, rest)
    requires Cuts(rest, limit, chunk, rest') && AllOps(rest) != []
    ensures Chunking(bc, limit, chunks + [chunk], rest')
  {
    PiecesHead(AllOps(rest), limit);
    PiecesHead(AllChanges(rest), limit);
    assert OpsPerChunk(chunks + [chunk]) == OpsPerChunk(chunks) + [ChunkOps(chunk)];
    assert ChangesPerChunk(chunks + [chunk]) == ChangesPerChunk(chunks) + [ChunkChanges(chunk)];
  }

  lemma PiecesHead<T>(s: seq<T>, limit: nat)
    requires limit >= 1 && s != []
    ensures var n := Min(limit, |s|); Pieces(s, limit) == [s[..n]] + Pieces(s[n..], limit)
  {
    if |s| <= limit { assert s[..|s|] == s && s[|s|..] == []; }
  }

  /** chunkBatchChanges. The source's callers pass a limit of at least 1; below that its loop
      would never move a cursor. */
  method ChunkBatchChanges(bc: Collections, limit: nat) returns (chunks: seq<Chunk>)
    requires SameLengths(bc) && limit >= 1
    ensures IsChunking(bc, limit, chunks)
  {
    chunks := [];
    var di: nat, pi: nat, ui: nat := 0, 0, 0;
    assert Rest(bc, 0, 0, 0) == bc.(fallbackUpdates := []);
    while di < |bc.deletes| || pi < |bc.posts| || ui < |bc.puts|
      invariant di <= |bc.deletes| && ui <= |bc.puts| && pi <= |bc.posts|
      invariant Chunking(bc, limit, chunks, Rest(bc, di, ui, pi))
      decreases |bc.deletes| + |bc.puts| + |bc.posts| - di - ui - pi
    {
      var chunk, di', ui', pi' := NextChunk(bc, di, ui, pi, limit);
      NextCuts(bc, di, ui, pi, di', ui', pi', limit, chunk);
      ChunkingStep(bc, limit, chunks, Rest(bc, di, ui, pi), chunk, Rest(bc, di', ui', pi'));
      di, ui, pi := di', ui', pi';
      chunks := chunks + [chunk];
    }
    assert AllOps(Rest(bc, di, ui, pi)) == [] && AllChanges(Rest(bc, di, ui, pi)) == [];
  }

  // ---- classification ----

  predicate IsCreate(c: Change) { c.action == Create }

  function IsFoundDelete(records: RecordsMap): Change -> bool {
    (c: Change) => c.action == Delete && IndexOf(c.record) in records
  }

  function IsFoundPut(records: RecordsMap): Change -> bool {
    (c: Change) => c.action == Update && IndexOf(c.record) in records && c.record.recordType in BATCH_PUT_TYPES
  }

  function IsFallbackUpdate(records: RecordsMap): Change -> bool {
    (c: Change) => c.action == Update && IndexOf(c.record) in records && c.record.recordType !in BATCH_PUT_TYPES
  }

  /** Entry by entry, the operation is the one its change stands for. */
  ghost predicate Aligned(records: RecordsMap, ops: seq<Op>, cs: seq<Change>) {
    |ops| == |cs| && forall k | 0 <= k < |ops| :: OpOf(records, cs[k]) == Some(ops[k])
  }

  /** The change lists, in order. */
  ghost predicate ListsAre(records: RecordsMap, cs: seq<Change>, bc: Collections) {
    && bc.deleteChanges == Filter(IsFoundDelete(records), cs)
    && bc.updateChanges == Filter(IsFoundPut(records), cs)
    && bc.createChanges == Filter(IsCreate, cs)
    && bc.fallbackUpdates == Filter(IsFallbackUpdate(records), cs)
  }

  /** The batch parameters beside them. */
  ghost predicate ListsAligned(records: RecordsMap, bc: Collections) {
    && Aligned(records, DelOps(bc.deletes), bc.deleteChanges)
    && Aligned(records, PutOps(bc.puts), bc.updateChanges)
    && Aligned(records, PostOps(bc.posts), bc.createChanges)
  }

  ghost predicate IsClassification(records: RecordsMap, cs: seq<Change>, bc: Collections) {
    ListsAre(records, cs, bc) && ListsAligned(records, bc)
  }

  /** What one change adds to the collections: nothing when its record is not there. */
  ghost predicate Adds(records: RecordsMap, c: Change, bc: Collections, bc': Collections) {
    var ix := IndexOf(c.record);
    if c.action == Create then
      bc' == bc.(posts := bc.posts + [c.record], createChanges := bc.createChanges + [c])
    else if ix !in records then bc' == bc
    else if c.action == Delete then
      bc' == bc.(deletes := bc.deletes + [records[ix]], deleteChanges := bc.deleteChanges + [c])
    else if c.record.recordType in BATCH_PUT_TYPES then
      bc' == bc.(puts := bc.puts + [(records[ix], c.record)], updateChanges := bc.updateChanges + [c])
    else bc' == bc.(fallbackUpdates := bc.fallbackUpdates + [c])
  }

  method Classify(records: RecordsMap, change: Change, bc: Collections) returns (bc': Collections)
    ensures Adds(records, change, bc, bc')
  {
    bc' := bc;
    match change.action
    case Create =>
      bc' := bc.(posts := bc.posts + [change.record], createChanges := bc.createChanges + [change]);
    case Delete =>
      if IndexOf(change.record) in records {
        bc' := bc.(deletes := bc.deletes + [records[IndexOf(change.record)]],
                   deleteChanges := bc.deleteChanges + [change]);
      }
    case Update =>
      if IndexOf(change.record) in records {
        if change.record.recordType in BATCH_PUT_TYPES {
          bc' := bc.(puts := bc.puts + [(records[IndexOf(change.record)], change.record)],
                     updateChanges := bc.updateChanges + [change]);
        } else {
          bc' := bc.(fallbackUpdates := bc.fallbackUpdates + [change]);
        }
      }
  }

  lemma AlignedSnoc(records: RecordsMap, ops: seq<Op>, cs: seq<Change>, op: Op, c: Change)
    requires Aligned(records, ops, cs) && OpOf(records, c) == Some(op)
    ensures Aligned(records, ops + [op], cs + [c])
  {
  }

  lemma ListsStep(records: RecordsMap, cs: seq<Change>, c: Change, bc: Collections, bc': Collections)
    requires ListsAre(records, cs, bc) && Adds(records, c, bc, bc')
    ensures ListsAre(records, cs + [c], bc')
  {
    FilterSnoc(IsFoundDelete(records), cs, c);
    FilterSnoc(IsFoundPut(records), cs, c);
    FilterSnoc(IsCreate, cs, c);
    FilterSnoc(IsFallbackUpdate(records), cs, c);
  }

  lemma AlignedStep(records: RecordsMap, c: Change, bc: Collections, bc': Collections)
    requires ListsAligned(records, bc) && Adds(records, c, bc, bc')
    ensures ListsAligned(records, bc')
  {
    if c.action == Create {
      AlignedSnoc(records, PostOps(bc.posts), bc.createChanges, Post(c.record), c);
      assert PostOps(bc'.posts) == PostOps(bc.posts) + [Post(c.record)];
    } else if IndexOf(c.record) in records {
      var id := records[IndexOf(c.record)];
      if c.action == Delete {
        AlignedSnoc(records, DelOps(bc.deletes), bc.deleteChanges, Del(id), c);
        assert DelOps(bc'.deletes) == DelOps(bc.deletes) + [Del(id)];
      } else if c.record.recordType in BATCH_PUT_TYPES {
        AlignedSnoc(records, PutOps(bc.puts), bc.updateChanges, Put(id, c.record), c);
        assert PutOps(bc'.puts) == PutOps(bc.puts) + [Put(id, c.record)];
      }
    }
  }

  /** buildBatchCollections. */
  method BuildBatchCollections(changes: seq<Change>, records: RecordsMap) returns (bc: Collections)
    ensures IsClassification(records, changes, bc)
  {
    bc := Collections([], [], [], [], [], [], []);
    assert changes[..0] == [];
    for i := 0 to |changes|
      invariant IsClassification(records, changes[..i], bc)
    {
      assert changes[..i + 1] == changes[..i] + [changes[i]];
      ghost var before := bc;
      bc := Classify(records, changes[i], bc);
      ListsStep(records, changes[..i], changes[i], before, bc);
      AlignedStep(records, changes[i], before, bc);
    }
    assert changes[..|changes|] == changes;
  }

  lemma {:induction false} AlignedOpsOf(records: RecordsMap, ops: seq<Op>, cs: seq<Change>)
    requires Aligned(records, ops, cs)
    ensures OpsOf(records, cs) == ops
    decreases |cs|
  {
    if cs != [] {
      AlignedOpsOf(records, ops[..|ops| - 1], cs[..|cs| - 1]);
      assert ops == ops[..|ops| - 1] + [ops[|ops| - 1]];
    }
  }

  lemma ClassificationAligned(records: RecordsMap, cs: seq<Change>, bc: Collections)
    requires IsClassification(records, cs, bc)
    ensures SameLengths(bc) && Aligned(records, AllOps(bc), AllChanges(bc))
  {
  }

  lemma {:induction false} PiecesAligned(records: RecordsMap, ops: seq<Op>, cs: seq<Change>, limit: nat)
    requires limit >= 1 && Aligned(records, ops, cs)
    ensures |Pieces(ops, limit)| == |Pieces(cs, limit)|
    ensures forall k | 0 <= k < |Pieces(ops, limit)| :: Aligned(records, Pieces(ops, limit)[k], Pieces(cs, limit)[k])
    decreases |ops|
  {
    if |ops| > limit { PiecesAligned(records, ops[limit..], cs[limit..], limit); }
  }

  /** The changes that will reach the server, in the order they do. */
  function Ordered(records: RecordsMap, cs: seq<Change>): seq<Change> {
    Filter(IsFoundDelete(records), cs) + Filter(IsFoundPut(records), cs) + Filter(IsCreate, cs)
    + Filter(IsFallbackUpdate(records), cs)
  }

  /** Which of two changes reaches the server first: deletes, then updates of the types a batch
      can express, then creates, then the other updates. */
  ghost predicate SentNoLater(a: Change, b: Change) {
    Rank(a) <= Rank(b)
  }

  ghost function Rank(c: Change): int {
    match c.action
    case Delete => 0
    case Update => if c.record.recordType in {"A", "AAAA", "CNAME", "TXT", "MX", "NS"} then 1 else 3
    case Create => 2
  }

  lemma OrderedByRank(records: RecordsMap, cs: seq<Change>, j: nat, k: nat)
    requires j < k < |Ordered(records, cs)|
    ensures SentNoLater(Ordered(records, cs)[j], Ordered(records, cs)[k])
  {
    var d, p := Filter(IsFoundDelete(records), cs), Filter(IsFoundPut(records), cs);
    var c, u := Filter(IsCreate, cs), Filter(IsFallbackUpdate(records), cs);
    InSegment(d, p, c, u, j);
    InSegment(d, p, c, u, k);
  }

  lemma InSegment(d: seq<Change>, p: seq<Change>, c: seq<Change>, u: seq<Change>, k: nat)
    requires k < |d + p + c + u|
    ensures var x := (d + p + c + u)[k];
            if k < |d| then x in d
            else if k < |d| + |p| then x in p
            else if k < |d| + |p| + |c| then x in c
            else x in u
  {
    if k < |d| {
      assert d[k] in d;
    } else if k < |d| + |p| {
      assert p[k - |d|] in p;
    } else if k < |d| + |p| + |c| {
      assert c[k - |d| - |p|] in c;
    } else {
      assert u[k - |d| - |p| - |c|] in u;
    }
  }

  /** A change with something to do: creates always, the others when their record exists. */
  function IsLive(records: RecordsMap): Change -> bool {
    (c: Change) => c.action == Create || IndexOf(c.record) in records
  }

  /** Classification loses and duplicates nothing: it reorders the live changes. */
  lemma OrderedPermutes(records: RecordsMap, cs: seq<Change>)
    ensures multiset(Ordered(records, cs)) == multiset(Filter(IsLive(records), cs))
  {
    forall c ensures multiset(Ordered(records, cs))[c] == multiset(Filter(IsLive(records), cs))[c] {
      FilterCounts(IsFoundDelete(records), cs, c);
      FilterCounts(IsFoundPut(records), cs, c);
      FilterCounts(IsCreate, cs, c);
      FilterCounts(IsFallbackUpdate(records), cs, c);
      FilterCounts(IsLive(records), cs, c);
    }
  }

  // ---- submission ----

  /** The operations with a positive verdict. */
  function Keep<T>(s: seq<T>, verdicts: seq<bool>): seq<T>
    requires |s| == |verdicts|
  {
    if s == [] then []
    else Keep(s[..|s| - 1], verdicts[..|s| - 1]) + if verdicts[|s| - 1] then [s[|s| - 1]] else []
  }

  lemma {:induction false} KeepAppend<T>(a: seq<T>, v: seq<bool>, b: seq<T>, w: seq<bool>)
    requires |a| == |v| && |b| == |w|
    ensures Keep(a + b, v + w) == Keep(a, v) + Keep(b, w)
    decreases |b|
  {
    if b == [] {
      assert a + b == a && v + w == v;
    } else {
      KeepAppend(a, v, b[..|b| - 1], w[..|b| - 1]);
      assert (a + b)[..|a + b| - 1] == a + b[..|b| - 1];
      assert (v + w)[..|a + b| - 1] == v + w[..|b| - 1];
    }
  }

  lemma {:induction false} KeepAll<T>(s: seq<T>, verdicts: seq<bool>)
    requires |s| == |verdicts| && false !in verdicts
    ensures Keep(s, verdicts) == s
  {
    if s != [] {
      KeepAll(s[..|s| - 1], verdicts[..|s| - 1]);
      assert verdicts[|s| - 1] in verdicts;
    }
  }

  /** Every operation of ops was tried once with the given verdict; the accepted ones took
      z to z', in order; failed reports whether one was rejected. */
  ghost predicate Ran(z: Zone, ops: seq<Op>, verdicts: seq<bool>, z': Zone, failed: bool) {
    |verdicts| == |ops| && z' == Steps(z, Keep(ops, verdicts)) && (failed <==> false in verdicts)
  }

  lemma RanNothing(z: Zone, all: seq<seq<Op>>)
    ensures Ran(z, Concat(all[..0]), [], z, false)
  {
  }

  lemma RanAppend(z: Zone, a: seq<Op>, v: seq<bool>, z1: Zone, f: bool, b: seq<Op>, w: seq<bool>, z2: Zone, g: bool)
    requires Ran(z, a, v, z1, f) && Ran(z1, b, w, z2, g)
    ensures Ran(z, a + b, v + w, z2, f || g)
  {
    KeepAppend(a, v, b, w);
    StepsAppend(z, Keep(a, v), Keep(b, w));
  }

  lemma RanOne(z: Zone, op: Op, ok: bool, z': Zone)
    requires z' == if ok then Step(z, op) else z
    ensures Ran(z, [op], [ok], z', !ok)
  {
    assert Keep([op], [ok]) == (if ok then [op] else []) by {
      assert [op][..0] == [] && [ok][..0] == [];
    }
    assert Steps(z, []) == z;
    assert [op][..0] == [];
    assert Steps(z, [op]) == Step(z, op);
  }

  lemma RanWhole(z: Zone, ops: seq<Op>)
    ensures Ran(z, ops, seq(|ops|, _ => true), Steps(z, ops), false)
  {
    KeepAll(ops, seq(|ops|, _ => true));
  }

  /** The Cloudflare API: each call is accepted or rejected as a whole, for reasons the
      caller cannot see. */
  class Client {
    var zone: Zone
    ghost var batches: seq<Chunk>

    method BatchDNSRecords(ch: Chunk) returns (ok: bool)
      modifies this
      ensures zone == if ok then Steps(old(zone), ChunkOps(ch)) else old(zone)
      ensures batches == old(batches) + [ch]
    {
      ok := *;
      batches := batches + [ch];
      if ok { zone := Steps(zone, ChunkOps(ch)); }
    }

    method DeleteDNSRecord(id: Id) returns (ok: bool)
      modifies this`zone
      ensures zone == if ok then Step(old(zone), Del(id)) else old(zone)
    {
      ok := *;
      if ok { zone := Step(zone, Del(id)); }
    }

    method UpdateDNSRecord(id: Id, record: DnsRecord) returns (ok: bool)
      modifies this`zone
      ensures zone == if ok then Step(old(zone), Put(id, record)) else old(zone)
    {
      ok := *;
      if ok { zone := Step(zone, Put(id, record)); }
    }

    method CreateDNSRecord(record: DnsRecord) returns (ok: bool)
      modifies this`zone
      ensures zone == if ok then Step(old(zone), Post(record)) else old(zone)
    {
      ok := *;
      if ok { zone := Step(zone, Post(record)); }
    }
  }

  /** One individual call of the fallback; a change whose record is gone makes none. */
  method ReplayChange(client: Client, change: Change, records: RecordsMap) returns (failed: bool, ghost verdicts: seq<bool>)
    modifies client`zone
    ensures var o := OpOf(records, change);
            Ran(old(client.zone), if o.Some? then [o.value] else [], verdicts, client.zone, failed)
  {
    var ok := true;
    verdicts := [];
    match change.action {
      case Create =>
        ok := client.CreateDNSRecord(change.record);
        verdicts := [ok];
      case Delete =>
        if IndexOf(change.record) in records {
          ok := client.DeleteDNSRecord(records[IndexOf(change.record)]);
          verdicts := [ok];
        }
      case Update =>
        if IndexOf(change.record) in records {
          ok := client.UpdateDNSRecord(records[IndexOf(change.record)], change.record);
          verdicts := [ok];
        }
    }
    failed := !ok;
    if OpOf(records, change).Some? {
      RanOne(old(client.zone), OpOf(records, change).value, ok, client.zone);
    }
  }

  lemma GroupStep(records: RecordsMap, group: seq<Change>, i: nat, z0: Zone, v: seq<bool>, z1: Zone, f: bool,
                  more: seq<bool>, z2: Zone, g: bool)
    requires i < |group|
    requires Ran(z0, OpsOf(records, group[..i]), v, z1, f)
    requires var o := OpOf(records, group[i]); Ran(z1, if o.Some? then [o.value] else [], more, z2, g)
    ensures Ran(z0, OpsOf(records, group[..i + 1]), v + more, z2, f || g)
  {
    var o := OpOf(records, group[i]);
    assert group[..i + 1] == group[..i] + [group[i]];
    OpsOfSnoc(records, group[..i], group[i]);
    RanAppend(z0, OpsOf(records, group[..i]), v, z1, f, if o.Some? then [o.value] else [], more, z2, g);
  }

  method ReplayGroup(client: Client, group: seq<Change>, records: RecordsMap) returns (failed: bool, ghost verdicts: seq<bool>)
    modifies client`zone
    ensures Ran(old(client.zone), OpsOf(records, group), verdicts, client.zone, failed)
  {
    failed, verdicts := false, [];
    ghost var z0 := client.zone;
    for i := 0 to |group|
      invariant Ran(z0, OpsOf(records, group[..i]), verdicts, client.zone, failed)
    {
      ghost var z1 := client.zone;
      var bad;
      ghost var more;
      bad, more := ReplayChange(client, group[i], records);
      GroupStep(records, group, i, z0, verdicts, z1, failed, more, client.zone, bad);
      failed := failed || bad;
      verdicts := verdicts + more;
    }
    assert group[..|group|] == group;
  }

  /** fallbackIndividualChanges: deletes, then updates, then creates. */
  method FallbackIndividualChanges(client: Client, chunk: Chunk, records: RecordsMap)
    returns (failed: bool, ghost verdicts: seq<bool>)
    modifies client`zone
    ensures Ran(old(client.zone), OpsOf(records, ChunkChanges(chunk)), verdicts, client.zone, failed)
  {
    var groups := [chunk.deleteChanges, chunk.updateChanges, chunk.createChanges];
    failed, verdicts := false, [];
    ghost var z0 := client.zone;
    for i := 0 to |groups|
      invariant Ran(z0, OpsOf(records, Concat(groups[..i])), verdicts, client.zone, failed)
    {
      ghost var z1 := client.zone;
      var bad;
      ghost var more;
      bad, more := ReplayGroup(client, groups[i], records);
      GroupsStep(records, groups, i, z0, verdicts, z1, failed, more, client.zone, bad);
      failed := failed || bad;
      verdicts := verdicts + more;
    }
    assert groups[..|groups|] == groups;
    ConcatThree(chunk.deleteChanges, chunk.updateChanges, chunk.createChanges);
  }

  lemma GroupsStep(records: RecordsMap, groups: seq<seq<Change>>, i: nat, z0: Zone, v: seq<bool>, z1: Zone, f: bool,
                   more: seq<bool>, z2: Zone, g: bool)
    requires i < |groups|
    requires Ran(z0, OpsOf(records, Concat(groups[..i])), v, z1, f)
    requires Ran(z1, OpsOf(records, groups[i]), more, z2, g)
    ensures Ran(z0, OpsOf(records, Concat(groups[..i + 1])), v + more, z2, f || g)
  {
    ConcatPrefix(groups, i);
    OpsOfAppend(records, Concat(groups[..i]), groups[i]);
    RanAppend(z0, OpsOf(records, Concat(groups[..i])), v, z1, f, OpsOf(records, groups[i]), more, z2, g);
  }

  lemma ConcatThree<T>(a: seq<T>, b: seq<T>, c: seq<T>)
    ensures Concat([a, b, c]) == a + b + c
  {
    ConcatSnoc([], a);
    ConcatSnoc([a], b);
    ConcatSnoc([a, b], c);
    assert [] + [a] == [a] && [a] + [b] == [a, b] && [a, b] + [c] == [a, b, c];
  }

  lemma ConcatPrefix<T>(ss: seq<seq<T>>, i: nat)
    requires i < |ss|
    ensures Concat(ss[..i + 1]) == Concat(ss[..i]) + ss[i]
  {
    assert ss[..i + 1] == ss[..i] + [ss[i]];
    ConcatSnoc(ss[..i], ss[i]);
  }

  /** Submit one chunk, falling back to individual calls when the batch is rejected. */
  method SubmitChunk(client: Client, chunk: Chunk, records: RecordsMap) returns (failed: bool, ghost verdicts: seq<bool>)
    requires OpsOf(records, ChunkChanges(chunk)) == ChunkOps(chunk)
    modifies client
    ensures client.batches == old(client.batches) + [chunk]
    ensures Ran(old(client.zone), ChunkOps(chunk), verdicts, client.zone, failed)
  {
    failed := false;
    var ok := client.BatchDNSRecords(chunk);
    if ok {
      verdicts := seq(|ChunkOps(chunk)|, _ => true);
      RanWhole(old(client.zone), ChunkOps(chunk));
    } else {
      failed, verdicts := FallbackIndividualChanges(client, chunk, records);
    }
  }

  lemma ChunksStep(all: seq<seq<Op>>, i: nat, z0: Zone, v: seq<bool>, z1: Zone, f: bool,
                   more: seq<bool>, z2: Zone, g: bool)
    requires i < |all|
    requires Ran(z0, Concat(all[..i]), v, z1, f) && Ran(z1, all[i], more, z2, g)
    ensures Ran(z0, Concat(all[..i + 1]), v + more, z2, f || g)
  {
    ConcatPrefix(all, i);
    RanAppend(z0, Concat(all[..i]), v, z1, f, all[i], more, z2, g);
  }

  method SubmitChunks(client: Client, chunks: seq<Chunk>, records: RecordsMap) returns (failed: bool, ghost verdicts: seq<bool>)
    requires forall k | 0 <= k < |chunks| :: OpsOf(records, ChunkChanges(chunks[k])) == ChunkOps(chunks[k])
    modifies client
    ensures client.batches == old(client.batches) + chunks
    ensures Ran(old(client.zone), Concat(OpsPerChunk(chunks)), verdicts, client.zone, failed)
  {
    hide Ran, Concat, ChunkOps, ChunkChanges, OpsOf;
    failed, verdicts := false, [];
    ghost var all, z0, sent := OpsPerChunk(chunks), client.zone, client.batches;
    RanNothing(z0, all);
    for i := 0 to |chunks|
      invariant client.batches == sent + chunks[..i]
      invariant Ran(z0, Concat(all[..i]), verdicts, client.zone, failed)
    {
      ghost var z1 := client.zone;
      var bad;
      ghost var more;
      bad, more := SubmitChunk(client, chunks[i], records);
      ChunksStep(all, i, z0, verdicts, z1, failed, more, client.zone, bad);
      assert sent + chunks[..i] + [chunks[i]] == sent + chunks[..i + 1];
      failed := failed || bad;
      verdicts := verdicts + more;
    }
    assert all[..|chunks|] == all && chunks[..|chunks|] == chunks;
  }

  lemma ChunkingRuns(records: RecordsMap, bc: Collections, limit: nat, chunks: seq<Chunk>)
    requires limit >= 1 && IsChunking(bc, limit, chunks)
    requires Aligned(records, AllOps(bc), AllChanges(bc))
    ensures Concat(OpsPerChunk(chunks)) == AllOps(bc)
    ensures forall k | 0 <= k < |chunks| :: OpsOf(records, ChunkChanges(chunks[k])) == ChunkOps(chunks[k])
  {
    PiecesConcat(AllOps(bc), limit);
    PiecesAligned(records, AllOps(bc), AllChanges(bc), limit);
    forall k | 0 <= k < |chunks| ensures OpsOf(records, ChunkChanges(chunks[k])) == ChunkOps(chunks[k]) {
      assert ChunkOps(chunks[k]) == OpsPerChunk(chunks)[k] && ChunkChanges(chunks[k]) == ChangesPerChunk(chunks)[k];
      AlignedOpsOf(records, ChunkOps(chunks[k]), ChunkChanges(chunks[k]));
    }
  }

  /** The individual updates of record types the batch PUT cannot express. */
  method SubmitFallbackUpdates(client: Client, updates: seq<Change>, records: RecordsMap)
    returns (failed: bool, ghost verdicts: seq<bool>)
    requires forall k | 0 <= k < |updates| :: updates[k].action == Update && IndexOf(updates[k].record) in records
    modifies client`zone
    ensures Ran(old(client.zone), OpsOf(records, updates), verdicts, client.zone, failed)
  {
    failed, verdicts := false, [];
    ghost var z0 := client.zone;
    for i := 0 to |updates|
      invariant Ran(z0, OpsOf(records, updates[..i]), verdicts, client.zone, failed)
    {
      ghost var z1 := client.zone;
      var id := records[IndexOf(updates[i].record)];
      var ok := client.UpdateDNSRecord(id, updates[i].record);
      RanOne(z1, Put(id, updates[i].record), ok, client.zone);
      GroupStep(records, updates, i, z0, verdicts, z1, failed, [ok], client.zone, !ok);
      if !ok { failed := true; }
      verdicts := verdicts + [ok];
    }
    assert updates[..|updates|] == updates;
  }

  /** The most operations one batch call carries: the setting, but never less than 200. */
  function BatchLimit(batchChangeSize: int): (limit: nat)
    ensures limit >= 1
  {
    if batchChangeSize > DEFAULT_BATCH_CHANGE_SIZE then batchChangeSize else DEFAULT_BATCH_CHANGE_SIZE
  }

  /** The batch part of submitDNSRecordChanges. */
  method SubmitBatchChanges(client: Client, bc: Collections, records: RecordsMap, batchChangeSize: int)
    returns (failed: bool, ghost verdicts: seq<bool>, ghost chunks: seq<Chunk>)
    requires SameLengths(bc) && Aligned(records, AllOps(bc), AllChanges(bc))
    modifies client
    ensures IsChunking(bc, BatchLimit(batchChangeSize), chunks) && client.batches == old(client.batches) + chunks
    ensures Ran(old(client.zone), AllOps(bc), verdicts, client.zone, failed)
  {
    failed, verdicts, chunks := false, [], [];
    if |bc.deletes| > 0 || |bc.posts| > 0 || |bc.puts| > 0 {
      var limit := BatchLimit(batchChangeSize);
      var cut := ChunkBatchChanges(bc, limit);
      ChunkingRuns(records, bc, limit, cut);
      failed, verdicts := SubmitChunks(client, cut, records);
      chunks := cut;
    } else {
      assert AllOps(bc) == [] && AllChanges(bc) == [];
      RanWhole(client.zone, []);
    }
  }

  lemma FallbackUpdatesFound(records: RecordsMap, cs: seq<Change>, updates: seq<Change>)
    requires updates == Filter(IsFallbackUpdate(records), cs)
    ensures forall k | 0 <= k < |updates| :: updates[k].action == Update && IndexOf(updates[k].record) in records
  {
    forall k | 0 <= k < |updates| ensures updates[k].action == Update && IndexOf(updates[k].record) in records {
      assert updates[k] in updates;
    }
  }

  /** submitDNSRecordChanges on classified changes: every live change is tried as exactly one
      operation that takes effect at most once, in execution order; the return value says
      whether one was rejected for good. The batch calls are the chunks under the limit. */
  method SubmitDNSRecordChanges(client: Client, bc: Collections, records: RecordsMap, batchChangeSize: int,
                                ghost cs: seq<Change>)
    returns (failed: bool, ghost verdicts: seq<bool>, ghost chunks: seq<Chunk>)
    requires IsClassification(records, cs, bc)
    modifies client
    ensures IsChunking(bc, BatchLimit(batchChangeSize), chunks) && client.batches == old(client.batches) + chunks
    ensures Ran(old(client.zone), OpsOf(records, Ordered(records, cs)), verdicts, client.zone, failed)
  {
    ClassificationAligned(records, cs, bc);
    AlignedOpsOf(records, AllOps(bc), AllChanges(bc));
    OpsOfAppend(records, AllChanges(bc), bc.fallbackUpdates);
    FallbackUpdatesFound(records, cs, bc.fallbackUpdates);
    ghost var z0 := client.zone;
    failed, verdicts, chunks := SubmitBatchChanges(client, bc, records, batchChangeSize);
    ghost var z1 := client.zone;
    var bad;
    ghost var more;
    bad, more := SubmitFallbackUpdates(client, bc.fallbackUpdates, records);
    RanAppend(z0, AllOps(bc), verdicts, z1, failed, OpsOf(records, bc.fallbackUpdates), more, client.zone, bad);
    failed := failed || bad;
    verdicts := verdicts + more;
  }

  /** The DNS part of submitChanges for one zone. */
  method SubmitZoneChanges(client: Client, changes: seq<Change>, records: RecordsMap, batchChangeSize: int)
    returns (failed: bool, ghost verdicts: seq<bool>)
    modifies client
    ensures Ran(old(client.zone), OpsOf(records, Ordered(records, changes)), verdicts, client.zone, failed)
  {
    var bc := BuildBatchCollections(changes, records);
    ghost var chunks;
    failed, verdicts, chunks := SubmitDNSRecordChanges(client, bc, records, batchChangeSize, changes);
  }

  /** When nothing failed, the zone is what the operations make of it, all of them. */
  lemma NothingFailed(z: Zone, ops: seq<Op>, verdicts: seq<bool>, z': Zone)
    requires Ran(z, ops, verdicts, z', false)
    ensures z' == Steps(z, ops)
  {
    KeepAll(ops, verdicts);
  }

  // ---- the size of the batch calls ----

  ghost predicate WithinSize(chunks: seq<Chunk>, size: int) {
    forall k | 0 <= k < |chunks| :: |ChunkOps(chunks[k])| <= size
  }

  lemma ChunksWithinLimit(bc: Collections, limit: nat, chunks: seq<Chunk>)
    requires limit >= 1 && IsChunking(bc, limit, chunks)
    ensures WithinSize(chunks, limit)
  {
    PiecesShape(AllOps(bc), limit);
    forall k | 0 <= k < |chunks| ensures |ChunkOps(chunks[k])| <= limit {
      assert ChunkOps(chunks[k]) == OpsPerChunk(chunks)[k];
    }
  }

  /** There are as few batch calls as the setting, or 200 if it is smaller, allows. */
  lemma BatchCallsCount(bc: Collections, batchChangeSize: int, chunks: seq<Chunk>)
    requires IsChunking(bc, BatchLimit(batchChangeSize), chunks) && SameLengths(bc)
    ensures var total := |bc.deletes| + |bc.puts| + |bc.posts|;
            var limit := if batchChangeSize >= 200 then batchChangeSize else 200;
            |chunks| == (total + limit - 1) / limit
  {
    PiecesCount(AllOps(bc), BatchLimit(batchChangeSize));
    assert |OpsPerChunk(chunks)| == |chunks|;
  }

  /** One chunk of n deletes. */
  function Deletes(n: nat, c: Change): Collections {
    Collections(seq(n, _ => 0), [], [], seq(n, _ => c), [], [], [])
  }

  lemma FullChunk(n: nat, c: Change)
    requires n >= 1
    ensures var bc := Deletes(n, c);
            var chunk := Chunk(bc.deletes, [], [], bc.deleteChanges, [], []);
            IsChunking(bc, n, [chunk]) && |ChunkOps(chunk)| == n
  {
    var bc := Deletes(n, c);
    var chunk := Chunk(bc.deletes, [], [], bc.deleteChanges, [], []);
    assert AllOps(bc) == ChunkOps(chunk) && AllChanges(bc) == ChunkChanges(chunk);
    assert OpsPerChunk([chunk]) == [ChunkOps(chunk)] && ChangesPerChunk([chunk]) == [ChunkChanges(chunk)];
  }

  /** Whatever there is to submit, every batch call respects the setting exactly when the
      setting is at least 200. */
  lemma SettingRespectedExactly(batchChangeSize: int)
    ensures (forall bc, chunks :: IsChunking(bc, BatchLimit(batchChangeSize), chunks) ==> WithinSize(chunks, batchChangeSize))
            <==> batchChangeSize >= DEFAULT_BATCH_CHANGE_SIZE
  {
    if batchChangeSize >= DEFAULT_BATCH_CHANGE_SIZE {
      forall bc, chunks | IsChunking(bc, BatchLimit(batchChangeSize), chunks) ensures WithinSize(chunks, batchChangeSize) {
        ChunksWithinLimit(bc, BatchLimit(batchChangeSize), chunks);
      }
    } else {
      var c := Change(Delete, DnsRecord("", "", "", 0, false, 0));
      FullChunk(DEFAULT_BATCH_CHANGE_SIZE, c);
      var bc := Deletes(DEFAULT_BATCH_CHANGE_SIZE, c);
      var chunks := [Chunk(bc.deletes, [], [], bc.deleteChanges, [], [])];
      assert IsChunking(bc, BatchLimit(batchChangeSize), chunks);
      assert |ChunkOps(chunks[0])| == DEFAULT_BATCH_CHANGE_SIZE;
    }
  }
}
