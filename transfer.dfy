/**
 * `export` and `import` of `src/model.ts` on records rather than JSON text:
 * each record holds what the source writes for one player (`id`,
 * `position`, `following`, `speed`, `reactionTime`).
 */
module Transfer {
  import opened Wrappers
  import opened Geometry
  import opened Players

  /** One exported player. */
  datatype PlayerRecord = PlayerRecord(
    id: PlayerId,
    position: Position,
    following: Following,
    speed: real,
    reactionTime: real)

  function ToRecord(r: PlayerRec): PlayerRecord {
    PlayerRecord(r.id, r.position, r.following, r.speed, r.reactionTime)
  }

  /** `export`: the records of the active players, in array order. */
  function ExportRecords(ps: seq<PlayerRec>): (out: seq<PlayerRecord>)
    ensures |out| <= |ps|
  {
    if ps == [] then []
    else
      var last := ps[|ps| - 1];
      ExportRecords(ps[..|ps| - 1]) + (if last.active then [ToRecord(last)] else [])
  }

  /** A record is exported exactly when it is the record of an active player. */
  lemma {:induction false} ExportedExactlyActive(ps: seq<PlayerRec>, x: PlayerRecord)
    ensures x in ExportRecords(ps) <==> exists i :: 0 <= i < |ps| && ps[i].active && ToRecord(ps[i]) == x
  {
    if ps != [] {
      var init := ps[..|ps| - 1];
      ExportedExactlyActive(init, x);
      if x in ExportRecords(init) {
        var i :| 0 <= i < |init| && init[i].active && ToRecord(init[i]) == x;
        assert ps[i] == init[i];
      }
      if exists i :: 0 <= i < |ps| && ps[i].active && ToRecord(ps[i]) == x {
        var i :| 0 <= i < |ps| && ps[i].active && ToRecord(ps[i]) == x;
        if i < |init| {
          assert init[i] == ps[i];
        }
      }
    }
  }

  predicate StrictlyAscending(s: seq<PlayerRecord>) {
    forall i, j :: 0 <= i < j < |s| ==> s[i].id < s[j].id
  }

  predicate Ascending(s: seq<PlayerRecord>) {
    forall i, j :: 0 <= i < j < |s| ==> s[i].id <= s[j].id
  }

  predicate DistinctIds(s: seq<PlayerRecord>) {
    forall i, j :: 0 <= i < j < |s| ==> s[i].id != s[j].id
  }

  /** Players whose ids are their indices export in strictly ascending id order. */
  lemma {:induction false} ExportAscending(ps: seq<PlayerRec>)
    requires forall i :: 0 <= i < |ps| ==> ps[i].id == i
    ensures StrictlyAscending(ExportRecords(ps))
  {
    if ps != [] {
      var init := ps[..|ps| - 1];
      ExportAscending(init);
      var head := ExportRecords(init);
      forall x | x in head ensures x.id < |ps| - 1 {
        ExportedExactlyActive(init, x);
      }
    }
  }

  /** Insertion of one record into an id-sorted list (ties go first). */
  function Insert(x: PlayerRecord, s: seq<PlayerRecord>): seq<PlayerRecord> {
    if s == [] then [x]
    else if x.id <= s[0].id then [x] + s
    else [s[0]] + Insert(x, s[1..])
  }

  /** `playerObjs.sort((a, b) => a.id - b.id)`, as an insertion sort. */
  function SortById(s: seq<PlayerRecord>): seq<PlayerRecord> {
    if s == [] then [] else Insert(s[0], SortById(s[1..]))
  }

  lemma AscendingCons(h: PlayerRecord, t: seq<PlayerRecord>, strict: bool)
    requires if strict then StrictlyAscending(t) else Ascending(t)
    requires forall y :: y in t ==> if strict then h.id < y.id else h.id <= y.id
    ensures if strict then StrictlyAscending([h] + t) else Ascending([h] + t)
  {
    forall j | 0 < j < |[h] + t| ensures ([h] + t)[j] in t {
      assert ([h] + t)[j] == t[j - 1];
    }
  }

  /** Inserting adds exactly the one record. */
  lemma {:induction false} InsertAdds(x: PlayerRecord, s: seq<PlayerRecord>)
    ensures multiset(Insert(x, s)) == multiset(s) + multiset{x}
    ensures forall y :: y in Insert(x, s) <==> y == x || y in s
  {
    if s != [] && x.id > s[0].id {
      assert s == [s[0]] + s[1..];
      InsertAdds(x, s[1..]);
    }
  }

  /** The first record of a sorted list has the least id. */
  lemma HeadIsLeast(s: seq<PlayerRecord>, y: PlayerRecord)
    requires Ascending(s) && y in s
    ensures s[0].id <= y.id
  {
  }

  /** Inserting keeps the list sorted. */
  lemma {:induction false} InsertAscending(x: PlayerRecord, s: seq<PlayerRecord>)
    requires Ascending(s)
    ensures Ascending(Insert(x, s))
  {
    if s == [] {
    } else if x.id <= s[0].id {
      forall y | y in s ensures x.id <= y.id {
        HeadIsLeast(s, y);
      }
      AscendingCons(x, s, false);
    } else {
      var t := s[1..];
      forall y | y in t ensures s[0].id <= y.id {
        var j :| 0 <= j < |t| && t[j] == y;
        assert s[j + 1] == y;
      }
      InsertAscending(x, t);
      InsertAdds(x, t);
      AscendingCons(s[0], Insert(x, t), false);
    }
  }

  /** Inserting a record whose id is not yet present keeps the list strictly sorted. */
  lemma {:induction false} InsertStrict(x: PlayerRecord, s: seq<PlayerRecord>)
    requires StrictlyAscending(s)
    requires forall y :: y in s ==> y.id != x.id
    ensures StrictlyAscending(Insert(x, s))
  {
    if s == [] {
    } else if x.id <= s[0].id {
      forall y | y in s ensures x.id < y.id {
        HeadIsLeast(s, y);
      }
      AscendingCons(x, s, true);
    } else {
      var t := s[1..];
      forall y | y in t ensures s[0].id < y.id && y in s {
        var j :| 0 <= j < |t| && t[j] == y;
        assert s[j + 1] == y;
      }
      InsertStrict(x, t);
      InsertAdds(x, t);
      AscendingCons(s[0], Insert(x, t), true);
    }
  }

  /** The sort keeps exactly the records it was given. */
  lemma {:induction false} SortByIdPermutes(s: seq<PlayerRecord>)
    ensures multiset(SortById(s)) == multiset(s)
    ensures forall y :: y in SortById(s) <==> y in s
  {
    if s != [] {
      var t := s[1..];
      assert s == [s[0]] + t;
      SortByIdPermutes(t);
      InsertAdds(s[0], SortById(t));
    }
  }

  /** The sort yields an id-ascending list. */
  lemma {:induction false} SortByIdAscending(s: seq<PlayerRecord>)
    ensures Ascending(SortById(s))
  {
    if s != [] {
      SortByIdAscending(s[1..]);
      InsertAscending(s[0], SortById(s[1..]));
    }
  }

  /** With distinct ids the sorted list is strictly ascending. */
  lemma {:induction false} SortByIdStrict(s: seq<PlayerRecord>)
    requires DistinctIds(s)
    ensures StrictlyAscending(SortById(s))
  {
    if s != [] {
      var t := s[1..];
      assert DistinctIds(t);
      SortByIdStrict(t);
      SortByIdPermutes(t);
      forall y | y in SortById(t) ensures y.id != s[0].id {
        var j :| 0 <= j < |t| && t[j] == y;
        assert s[j + 1] == y;
      }
      InsertStrict(s[0], SortById(t));
    }
  }

  /** The sort yields a sorted permutation, strictly sorted when ids are distinct. */
  lemma SortByIdSorts(s: seq<PlayerRecord>)
    ensures Ascending(SortById(s))
    ensures multiset(SortById(s)) == multiset(s)
    ensures forall y :: y in SortById(s) <==> y in s
    ensures DistinctIds(s) ==> StrictlyAscending(SortById(s))
  {
    SortByIdPermutes(s);
    SortByIdAscending(s);
    if DistinctIds(s) {
      SortByIdStrict(s);
    }
  }

  /** The tail of a strictly ascending list holds exactly its records above the head. */
  lemma StrictTail(s: seq<PlayerRecord>, x: PlayerRecord)
    requires StrictlyAscending(s) && s != []
    ensures x in s[1..] <==> x in s && x.id > s[0].id
  {
    if x in s[1..] {
      var i :| 0 <= i < |s| - 1 && s[1..][i] == x;
      assert s[i + 1] == x;
    }
    if x in s && x.id > s[0].id {
      var m :| 0 <= m < |s| && s[m] == x;
      assert s[1..][m - 1] == x;
    }
  }

  /** Two strictly ascending lists holding the same records are the same list. */
  lemma {:induction false} AscendingUnique(s: seq<PlayerRecord>, t: seq<PlayerRecord>)
    requires StrictlyAscending(s) && StrictlyAscending(t)
    requires forall x :: x in s <==> x in t
    ensures s == t
    decreases |s|
  {
    assert (s != [] ==> s[0] in t) && (t != [] ==> t[0] in s);
    if s != [] {
      var j :| 0 <= j < |t| && t[j] == s[0];
      var k :| 0 <= k < |s| && s[k] == t[0];
      assert j == 0;
      forall x ensures x in s[1..] <==> x in t[1..] {
        StrictTail(s, x);
        StrictTail(t, x);
      }
      AscendingUnique(s[1..], t[1..]);
      assert s == [s[0]] + s[1..];
      assert t == [t[0]] + t[1..];
    }
  }

  /** One past the largest id; the length of the imported players array. */
  function Span(records: seq<PlayerRecord>): (n: nat)
    requires forall r :: r in records ==> r.id >= 0
    ensures forall r :: r in records ==> r.id < n
    ensures records != [] ==> exists r :: r in records && r.id == n - 1
    ensures records == [] ==> n == 0
  {
    if records == [] then 0
    else
      var rest := Span(records[1..]);
      assert forall r :: r in records[1..] ==> r in records;
      assert forall r :: r in records ==> r == records[0] || r in records[1..];
      if records[0].id + 1 > rest then records[0].id + 1 else rest
  }

  /** A following id `import` can resolve: empty, or the index of an imported player. */
  predicate Resolvable(f: PlayerId, span: nat) {
    f == NO_PLAYER || 0 <= f < span
  }

  /** What `import` needs of its input to finish: distinct non-negative ids
      (otherwise its gap-filling loop never ends), following ids that name a
      slot of the new array, and speeds the motion rule accepts. */
  predicate Importable(records: seq<PlayerRecord>) {
    && DistinctIds(records)
    && (forall r :: r in records ==> r.id >= 0 && r.speed >= 0.0)
    && (forall r :: r in records ==>
          Resolvable(r.following.0, Span(records)) && Resolvable(r.following.1, Span(records)))
  }

  /** The first record with the given id. */
  function Find(records: seq<PlayerRecord>, id: PlayerId): (r: Option<PlayerRecord>)
    ensures r.Some? ==> r.value in records && r.value.id == id
    ensures r.None? ==> forall x :: x in records ==> x.id != id
  {
    if records == [] then None
    else if records[0].id == id then Some(records[0])
    else
      assert forall x :: x in records ==> x == records[0] || x in records[1..];
      Find(records[1..], id)
  }

  /** With distinct ids, a record is found under its own id. */
  lemma FindsMember(records: seq<PlayerRecord>, x: PlayerRecord)
    requires DistinctIds(records) && x in records
    ensures Find(records, x.id) == Some(x)
  {
    var y := Find(records, x.id).value;
    var i :| 0 <= i < |records| && records[i] == x;
    var j :| 0 <= j < |records| && records[j] == y;
    assert i == j;
  }

  lemma {:induction false} FindAppend(s: seq<PlayerRecord>, x: PlayerRecord, id: PlayerId)
    ensures Find(s + [x], id)
         == if Find(s, id).Some? then Find(s, id) else if x.id == id then Some(x) else None
  {
    if s != [] {
      assert (s + [x])[1..] == s[1..] + [x];
      FindAppend(s[1..], x, id);
    }
  }

  /** The players array index a gap id gets: an inactive player at (0, 0). */
  function Placeholder(id: PlayerId): PlayerRec {
    NewPlayerRec(id, Position(0.0, 0.0)).(active := false)
  }

  /** The player first built from a record, before its following ids are wired. */
  function Built(rec: PlayerRecord): PlayerRec {
    NewPlayerRec(rec.id, rec.position).(speed := rec.speed, reactionTime := rec.reactionTime)
  }

  /** The slots after `follow(0, following[0])` then `follow(1, following[1])` on a fresh player. */
  function Wiring(rec: PlayerRecord): (f: Following)
    ensures Proper(f, rec.id) || rec.id == NO_PLAYER
  {
    Followed(Followed((NO_PLAYER, NO_PLAYER), rec.id, 0, rec.following.0), rec.id, 1, rec.following.1)
  }

  /** Wiring reproduces the exported slots exactly when they were proper. */
  lemma WiringRestores(rec: PlayerRecord)
    requires rec.id != NO_PLAYER
    ensures Wiring(rec) == rec.following <==> Proper(rec.following, rec.id)
  {
  }

  /** Entry `i` of the array once the build loop has seen `records`. */
  function BuiltAt(records: seq<PlayerRecord>, i: PlayerId): PlayerRec {
    match Find(records, i)
    case None => Placeholder(i)
    case Some(rec) => Built(rec)
  }

  /** Entry `i` of the array once the wiring loop has seen `records`. */
  function ImportedAt(records: seq<PlayerRecord>, i: PlayerId): PlayerRec {
    match Find(records, i)
    case None => Placeholder(i)
    case Some(rec) => Built(rec).(following := Wiring(rec))
  }

  /** The new players array `import` builds: index `i` holds the player with
      id `i`, a placeholder where no record has that id. */
  function ImportedRecs(records: seq<PlayerRecord>): seq<PlayerRec>
    requires forall r :: r in records ==> r.id >= 0
  {
    seq(Span(records), i => ImportedAt(records, i))
  }

  /** The imported array is indexed by id, and every entry is a fresh player:
      proper slots naming players of the array, no history, no targets. */
  lemma ImportedIndexed(records: seq<PlayerRecord>)
    requires Importable(records)
    ensures var ps := ImportedRecs(records);
            && |ps| == Span(records)
            && forall i :: 0 <= i < |ps| ==>
                 && ps[i].id == i
                 && Proper(ps[i].following, i)
                 && Resolvable(ps[i].following.0, |ps|)
                 && Resolvable(ps[i].following.1, |ps|)
                 && ps[i].history == []
                 && ps[i].target == None
                 && ps[i].perceivedTarget == None
  {
  }

  /** Each record's player sits at the index of its id, active, with that
      record's position, speed and reaction time. */
  lemma ImportedRecordPlayers(records: seq<PlayerRecord>, r: PlayerRecord)
    requires Importable(records) && r in records
    ensures var ps := ImportedRecs(records);
            && 0 <= r.id < |ps|
            && ps[r.id].active
            && ps[r.id].position == r.position
            && ps[r.id].speed == r.speed
            && ps[r.id].reactionTime == r.reactionTime
            && ps[r.id].following == Wiring(r)
  {
    FindsMember(records, r);
  }

  /** Every id below the span that no record carries is an inactive placeholder at (0, 0). */
  lemma ImportedGaps(records: seq<PlayerRecord>, i: nat)
    requires Importable(records) && i < Span(records)
    requires forall r :: r in records ==> r.id != i
    ensures ImportedRecs(records)[i] == Placeholder(i)
    ensures !ImportedRecs(records)[i].active && ImportedRecs(records)[i].position == Position(0.0, 0.0)
  {
  }

  /** Of a freshly imported array, exactly the given records are exported,
      provided each record's following slots were proper to begin with. */
  lemma ExportedAfterImport(records: seq<PlayerRecord>, x: PlayerRecord)
    requires Importable(records)
    requires forall r :: r in records ==> Proper(r.following, r.id)
    ensures x in ExportRecords(ImportedRecs(records)) <==> x in records
  {
    var ps := ImportedRecs(records);
    ExportedExactlyActive(ps, x);
    if x in records {
      ImportedRecordPlayers(records, x);
      WiringRestores(x);
      assert ps[x.id].active && ToRecord(ps[x.id]) == x;
    }
    if x in ExportRecords(ps) {
      var i :| 0 <= i < |ps| && ps[i].active && ToRecord(ps[i]) == x;
      var rec := Find(records, i).value;
      WiringRestores(rec);
      assert ToRecord(ps[i]) == rec;
    }
  }

  /** Exporting a freshly imported array gives back the records sorted by id,
      provided each record's following slots were proper to begin with. */
  lemma ExportAfterImport(records: seq<PlayerRecord>)
    requires Importable(records)
    requires forall r :: r in records ==> Proper(r.following, r.id)
    ensures ExportRecords(ImportedRecs(records)) == SortById(records)
  {
    var out := ExportRecords(ImportedRecs(records));
    ImportedIndexed(records);
    ExportAscending(ImportedRecs(records));
    SortByIdSorts(records);
    forall x ensures x in out <==> x in SortById(records) {
      ExportedAfterImport(records, x);
    }
    AscendingUnique(out, SortById(records));
  }
}
