/**
 * The seed command's reconciliation loop, written once for every seeded model: for each entry of
 * a data table, `get_or_create` a row by name with the entry as defaults, and when the row already
 * existed, copy every differing field from the entry and save only if some field differed.
 */
module Seeding {
  import opened Wrappers
  import opened Lookup

  /** What the command reports for one entry. */
  datatype Event = Created(name: string) | Updated(name: string) | Unchanged(name: string)

  /**
   * How the command reads and writes one seeded model: the `name` it looks rows up by, the primary
   * key, the row `get_or_create` inserts for an entry under a fresh key, whether a row already
   * `agrees` with an entry on every seeded field, and the field-by-field `reconcile` that returns
   * the updated row and whether any field changed.
   */
  datatype Table<!T> = Table(
    name: T -> string,
    id: T -> nat,
    withId: (T, nat) -> T,
    agrees: (T, T) -> bool,
    reconcile: (T, T) -> (T, bool))

  /** What the loop relies on of a model's reconciliation. */
  ghost predicate Lawful<T(!new)>(tb: Table<T>) {
    && (forall row, seed :: tb.reconcile(row, seed).1 == !tb.agrees(row, seed))
    && (forall row, seed :: tb.agrees(tb.reconcile(row, seed).0, seed))
    && (forall row, seed :: tb.agrees(row, seed) ==> tb.reconcile(row, seed).0 == row)
    && (forall row, seed :: tb.name(tb.reconcile(row, seed).0) == tb.name(row))
    && (forall row, seed :: tb.id(tb.reconcile(row, seed).0) == tb.id(row))
    && (forall seed, i :: tb.agrees(tb.withId(seed, i), seed))
    && (forall seed, i :: tb.name(tb.withId(seed, i)) == tb.name(seed))
    && (forall seed, i :: tb.id(tb.withId(seed, i)) == i)
  }

  function NameIs<T>(tb: Table<T>, n: string): T -> bool {
    (r: T) => tb.name(r) == n
  }

  /** Exactly one row carries the entry's name, and it agrees with the entry. */
  ghost predicate Seeded<T>(tb: Table<T>, rows: seq<T>, seed: T) {
    var m := Get(rows, NameIs(tb, tb.name(seed)));
    m.Unique? && tb.agrees(rows[m.index], seed)
  }

  ghost predicate SeededAll<T>(tb: Table<T>, rows: seq<T>, seeds: seq<T>) {
    forall k :: 0 <= k < |seeds| ==> Seeded(tb, rows, seeds[k])
  }

  ghost predicate DistinctIds<T>(tb: Table<T>, rows: seq<T>) {
    forall i, j :: 0 <= i < j < |rows| ==> tb.id(rows[i]) != tb.id(rows[j])
  }

  ghost predicate DistinctNames<T>(tb: Table<T>, rows: seq<T>) {
    forall i, j :: 0 <= i < j < |rows| ==> tb.name(rows[i]) != tb.name(rows[j])
  }

  /**
   * `after` differs from `before` only on rows named in `touched`: every old row keeps its place,
   * name and key, rows with other names are unchanged, and every added row is named in `touched`.
   */
  ghost predicate Frames<T>(tb: Table<T>, before: seq<T>, after: seq<T>, touched: set<string>) {
    && |before| <= |after|
    && (forall k :: 0 <= k < |before| ==>
          tb.name(after[k]) == tb.name(before[k]) && tb.id(after[k]) == tb.id(before[k]))
    && (forall k :: 0 <= k < |before| && tb.name(before[k]) !in touched ==> after[k] == before[k])
    && (forall k :: |before| <= k < |after| ==> tb.name(after[k]) in touched)
  }

  /** The rows after the loop, the reports it wrote, and the name whose lookup raised MultipleObjectsReturned, if one did. */
  datatype Outcome<T> = Outcome(rows: seq<T>, events: seq<Event>, failed: Option<string>)

  /** One iteration of the loop: `get_or_create` by name, then reconcile and save if anything changed. */
  function Upsert<T(!new)>(tb: Table<T>, rows: seq<T>, seed: T): (r: Outcome<T>)
    requires Lawful(tb)
    ensures r.failed.Some? <==> Get(rows, NameIs(tb, tb.name(seed))).Multiple?
    ensures r.failed.Some? ==> r == Outcome(rows, [], Some(tb.name(seed)))
    ensures r.failed.None? ==> |r.events| == 1 && Seeded(tb, r.rows, seed)
    ensures r.failed.None? ==> Frames(tb, rows, r.rows, {tb.name(seed)})
    ensures r.failed.None? ==>
      (r.events[0] == Created(tb.name(seed)) <==> Get(rows, NameIs(tb, tb.name(seed))).Absent?)
    ensures r.events == [Unchanged(tb.name(seed))] <==>
      var m := Get(rows, NameIs(tb, tb.name(seed)));
      m.Unique? && tb.agrees(rows[m.index], seed)
    ensures r.events == [Unchanged(tb.name(seed))] ==> r.rows == rows
    ensures DistinctIds(tb, rows) ==> DistinctIds(tb, r.rows)
    ensures DistinctNames(tb, rows) ==> DistinctNames(tb, r.rows)
    ensures forall k :: 0 <= k < |rows| ==> r.rows[k] == rows[k] || r.rows[k] == tb.reconcile(rows[k], seed).0
    ensures forall k :: |rows| <= k < |r.rows| ==> r.rows[k] == tb.withId(seed, tb.id(r.rows[k]))
  {
    var n := tb.name(seed);
    match Get(rows, NameIs(tb, n))
    case Absent =>
      var created := tb.withId(seed, FreshId(rows, tb.id));
      InsertFacts(tb, rows, seed);
      Outcome(rows + [created], [Created(n)], None)
    case Unique(i) =>
      var (row, changed) := tb.reconcile(rows[i], seed);
      if changed then
        UpdateFacts(tb, rows, seed, i);
        Outcome(rows[i := row], [Updated(n)], None)
      else
        Outcome(rows, [Unchanged(n)], None)
    case Multiple =>
      Outcome(rows, [], Some(n))
  }

  /** Inserting the entry under a fresh key when no row carries its name. */
  lemma InsertFacts<T(!new)>(tb: Table<T>, rows: seq<T>, seed: T)
    requires Lawful(tb)
    requires Get(rows, NameIs(tb, tb.name(seed))).Absent?
    ensures var after := rows + [tb.withId(seed, FreshId(rows, tb.id))];
      && Seeded(tb, after, seed)
      && Frames(tb, rows, after, {tb.name(seed)})
      && (DistinctIds(tb, rows) ==> DistinctIds(tb, after))
      && (DistinctNames(tb, rows) ==> DistinctNames(tb, after))
      && (forall k :: 0 <= k < |rows| ==> after[k] == rows[k])
      && (forall k :: |rows| <= k < |after| ==> after[k] == tb.withId(seed, tb.id(after[k])))
  {
    var created := tb.withId(seed, FreshId(rows, tb.id));
    var after := rows + [created];
    assert forall k :: 0 <= k < |rows| ==> after[k] == rows[k];
    assert after[|rows|] == created;
    GetUniqueAt(after, NameIs(tb, tb.name(seed)), |rows|);
  }

  /** Saving the reconciled row in place when exactly the row at `i` carries the entry's name. */
  lemma UpdateFacts<T(!new)>(tb: Table<T>, rows: seq<T>, seed: T, i: nat)
    requires Lawful(tb)
    requires Get(rows, NameIs(tb, tb.name(seed))) == Unique(i)
    ensures var after := rows[i := tb.reconcile(rows[i], seed).0];
      && Seeded(tb, after, seed)
      && Frames(tb, rows, after, {tb.name(seed)})
      && (DistinctIds(tb, rows) ==> DistinctIds(tb, after))
      && (DistinctNames(tb, rows) ==> DistinctNames(tb, after))
      && |after| == |rows|
      && (forall k :: 0 <= k < |rows| ==> after[k] == rows[k] || after[k] == tb.reconcile(rows[k], seed).0)
  {
    var after := rows[i := tb.reconcile(rows[i], seed).0];
    GetUniqueAt(after, NameIs(tb, tb.name(seed)), i);
  }

  /** The whole loop over a data table; an exception ends it, keeping the rows already saved. */
  function UpsertAll<T(!new)>(tb: Table<T>, rows: seq<T>, seeds: seq<T>): (r: Outcome<T>)
    requires Lawful(tb)
    ensures DistinctIds(tb, rows) ==> DistinctIds(tb, r.rows)
    ensures DistinctNames(tb, rows) ==> DistinctNames(tb, r.rows)
    ensures Frames(tb, rows, r.rows, Names(tb, seeds))
    decreases |seeds|
  {
    if seeds == [] then Outcome(rows, [], None)
    else
      var first := Upsert(tb, rows, seeds[0]);
      if first.failed.Some? then first
      else
        var rest := UpsertAll(tb, first.rows, seeds[1..]);
        FramesCompose(tb, rows, first.rows, rest.rows, {tb.name(seeds[0])}, Names(tb, seeds[1..]));
        Outcome(rest.rows, first.events + rest.events, rest.failed)
  }

  /** The names of the entries of a data table. */
  function Names<T>(tb: Table<T>, seeds: seq<T>): (r: set<string>)
    ensures forall k :: 0 <= k < |seeds| ==> tb.name(seeds[k]) in r
    ensures forall n :: n in r ==> exists k :: 0 <= k < |seeds| && tb.name(seeds[k]) == n
  {
    if seeds == [] then {}
    else
      var rest := Names(tb, seeds[1..]);
      assert forall k :: 0 < k < |seeds| ==> seeds[k] == seeds[1..][k - 1];
      {tb.name(seeds[0])} + rest
  }

  /** `get` finds the row at `k` when it is the only one satisfying `p`. */
  lemma GetUniqueAt<T>(rows: seq<T>, p: T -> bool, k: nat)
    requires k < |rows| && p(rows[k])
    requires forall j :: 0 <= j < |rows| && j != k ==> !p(rows[j])
    ensures Get(rows, p) == Unique(k)
  {
  }

  lemma FramesCompose<T>(tb: Table<T>, a: seq<T>, b: seq<T>, c: seq<T>, s1: set<string>, s2: set<string>)
    requires Frames(tb, a, b, s1) && Frames(tb, b, c, s2)
    ensures Frames(tb, a, c, s1 + s2)
  {
  }

  /** Outside the touched names a frame changes nothing `get` can see. */
  lemma FramesKeepGet<T>(tb: Table<T>, before: seq<T>, after: seq<T>, touched: set<string>, n: string)
    requires Frames(tb, before, after, touched) && n !in touched
    ensures Get(after, NameIs(tb, n)) == Get(before, NameIs(tb, n))
    ensures Get(before, NameIs(tb, n)).Unique? ==>
      after[Get(before, NameIs(tb, n)).index] == before[Get(before, NameIs(tb, n)).index]
  {
    var p := NameIs(tb, n);
    assert forall j :: 0 <= j < |after| ==> (p(after[j]) <==> j < |before| && p(before[j]));
    match Get(before, p)
    case Absent =>
    case Unique(i) =>
      GetUniqueAt(after, p, i);
    case Multiple =>
      var i, j :| 0 <= i < j < |before| && p(before[i]) && p(before[j]);
      assert p(after[i]) && p(after[j]);
  }

  /**
   * With distinct names in the data table, the loop runs to the end exactly when no entry's name
   * is already held by two rows, and then every entry is held by exactly one agreeing row.
   */
  lemma {:induction false} UpsertAllSeeds<T(!new)>(tb: Table<T>, rows: seq<T>, seeds: seq<T>)
    requires Lawful(tb) && DistinctNames(tb, seeds)
    ensures UpsertAll(tb, rows, seeds).failed.None? <==> NoneHeldTwice(tb, rows, seeds)
    ensures UpsertAll(tb, rows, seeds).failed.None? ==> SeededAll(tb, UpsertAll(tb, rows, seeds).rows, seeds)
    decreases |seeds|
  {
    if seeds != [] {
      UpsertAllCons(tb, rows, seeds);
      var first := Upsert(tb, rows, seeds[0]);
      if first.failed.None? {
        var tail := seeds[1..];
        DistinctNamesTail(tb, seeds);
        UpsertAllSeeds(tb, first.rows, tail);
        var rest := UpsertAll(tb, first.rows, tail);
        TailLookupsUnchanged(tb, rows, first.rows, seeds);
        NoneHeldTwiceCons(tb, rows, first.rows, seeds);
        if rest.failed.None? {
          HeadStaysSeeded(tb, first.rows, rest.rows, seeds);
        }
      }
    }
  }

  lemma DistinctNamesTail<T>(tb: Table<T>, seeds: seq<T>)
    requires DistinctNames(tb, seeds) && seeds != []
    ensures DistinctNames(tb, seeds[1..])
  {
    forall i, j | 0 <= i < j < |seeds[1..]|
      ensures tb.name(seeds[1..][i]) != tb.name(seeds[1..][j])
    {
      assert seeds[1..][i] == seeds[i + 1] && seeds[1..][j] == seeds[j + 1];
    }
  }

  /** No entry's name is held by two rows. */
  ghost predicate NoneHeldTwice<T>(tb: Table<T>, rows: seq<T>, seeds: seq<T>) {
    forall k :: 0 <= k < |seeds| ==> !Get(rows, NameIs(tb, tb.name(seeds[k]))).Multiple?
  }

  lemma NoneHeldTwiceCons<T>(tb: Table<T>, rows: seq<T>, mid: seq<T>, seeds: seq<T>)
    requires seeds != []
    requires forall k :: 1 <= k < |seeds| ==>
      Get(mid, NameIs(tb, tb.name(seeds[k]))) == Get(rows, NameIs(tb, tb.name(seeds[k])))
    ensures NoneHeldTwice(tb, rows, seeds) <==>
      !Get(rows, NameIs(tb, tb.name(seeds[0]))).Multiple? && NoneHeldTwice(tb, mid, seeds[1..])
  {
    assert forall k :: 0 <= k < |seeds[1..]| ==> seeds[1..][k] == seeds[k + 1];
  }

  /** One turn of the loop, then the rest of it. */
  lemma UpsertAllCons<T(!new)>(tb: Table<T>, rows: seq<T>, seeds: seq<T>)
    requires Lawful(tb) && seeds != []
    ensures var first := Upsert(tb, rows, seeds[0]);
      UpsertAll(tb, rows, seeds) ==
        if first.failed.Some? then first
        else
          var rest := UpsertAll(tb, first.rows, seeds[1..]);
          Outcome(rest.rows, first.events + rest.events, rest.failed)
  {
  }

  /** Upserting the first entry leaves what `get` finds for the other entries' names as it was. */
  lemma TailLookupsUnchanged<T(!new)>(tb: Table<T>, rows: seq<T>, after: seq<T>, seeds: seq<T>)
    requires Lawful(tb) && DistinctNames(tb, seeds) && seeds != []
    requires Frames(tb, rows, after, {tb.name(seeds[0])})
    ensures forall k :: 1 <= k < |seeds| ==>
      Get(after, NameIs(tb, tb.name(seeds[k]))) == Get(rows, NameIs(tb, tb.name(seeds[k])))
  {
    forall k | 1 <= k < |seeds|
      ensures Get(after, NameIs(tb, tb.name(seeds[k]))) == Get(rows, NameIs(tb, tb.name(seeds[k])))
    {
      FramesKeepGet(tb, rows, after, {tb.name(seeds[0])}, tb.name(seeds[k]));
    }
  }

  /** Upserting the other entries leaves the first entry's row alone. */
  lemma HeadStaysSeeded<T(!new)>(tb: Table<T>, mid: seq<T>, after: seq<T>, seeds: seq<T>)
    requires DistinctNames(tb, seeds) && seeds != []
    requires Seeded(tb, mid, seeds[0]) && SeededAll(tb, after, seeds[1..])
    requires Frames(tb, mid, after, Names(tb, seeds[1..]))
    ensures SeededAll(tb, after, seeds)
  {
    forall k | 0 <= k < |seeds[1..]|
      ensures tb.name(seeds[1..][k]) != tb.name(seeds[0])
    {
      assert seeds[1..][k] == seeds[k + 1];
    }
    assert tb.name(seeds[0]) !in Names(tb, seeds[1..]);
    FramesKeepGet(tb, mid, after, Names(tb, seeds[1..]), tb.name(seeds[0]));
    forall k | 0 <= k < |seeds|
      ensures Seeded(tb, after, seeds[k])
    {
      if k > 0 {
        assert seeds[k] == seeds[1..][k - 1];
      }
    }
  }

  /** The reports of a run in which every entry was found already agreeing. */
  function AllUnchanged<T>(tb: Table<T>, seeds: seq<T>): (r: seq<Event>)
    ensures |r| == |seeds|
    ensures forall k :: 0 <= k < |seeds| ==> r[k] == Unchanged(tb.name(seeds[k]))
  {
    seq(|seeds|, k requires 0 <= k < |seeds| => Unchanged(tb.name(seeds[k])))
  }

  /** Over rows that already hold every entry, the loop changes nothing and saves nothing. */
  lemma {:induction false} UpsertAllAgain<T(!new)>(tb: Table<T>, rows: seq<T>, seeds: seq<T>)
    requires Lawful(tb) && SeededAll(tb, rows, seeds)
    ensures UpsertAll(tb, rows, seeds) == Outcome(rows, AllUnchanged(tb, seeds), None)
    decreases |seeds|
  {
    if seeds != [] {
      assert Seeded(tb, rows, seeds[0]);
      UpsertAllCons(tb, rows, seeds);
      UpsertUnchanged(tb, rows, seeds[0]);
      assert SeededAll(tb, rows, seeds[1..]) by {
        forall k | 0 <= k < |seeds[1..]| ensures Seeded(tb, rows, seeds[1..][k]) {
          assert seeds[1..][k] == seeds[k + 1];
        }
      }
      UpsertAllAgain(tb, rows, seeds[1..]);
      UnchangedCons(tb, seeds);
    }
  }

  lemma UnchangedCons<T>(tb: Table<T>, seeds: seq<T>)
    requires seeds != []
    ensures AllUnchanged(tb, seeds) == [Unchanged(tb.name(seeds[0]))] + AllUnchanged(tb, seeds[1..])
  {
  }

  lemma UpsertUnchanged<T(!new)>(tb: Table<T>, rows: seq<T>, seed: T)
    requires Lawful(tb) && Seeded(tb, rows, seed)
    ensures Upsert(tb, rows, seed) == Outcome(rows, [Unchanged(tb.name(seed))], None)
  {
  }

  /** Seeding is idempotent: after a run that completed, a second run saves nothing and changes nothing. */
  lemma SeedTwice<T(!new)>(tb: Table<T>, rows: seq<T>, seeds: seq<T>)
    requires Lawful(tb) && DistinctNames(tb, seeds)
    requires UpsertAll(tb, rows, seeds).failed.None?
    ensures var once := UpsertAll(tb, rows, seeds).rows;
      UpsertAll(tb, once, seeds) == Outcome(once, AllUnchanged(tb, seeds), None)
  {
    UpsertAllSeeds(tb, rows, seeds);
    UpsertAllAgain(tb, UpsertAll(tb, rows, seeds).rows, seeds);
  }

  /**
   * Every row of `before` shows the same `view` at its place in `after`, and every row added
   * after them shows `v`.
   */
  ghost predicate KeepsView<T, V>(before: seq<T>, after: seq<T>, view: T -> V, v: V) {
    && |before| <= |after|
    && (forall k :: 0 <= k < |before| ==> view(after[k]) == view(before[k]))
    && (forall k :: |before| <= k < |after| ==> view(after[k]) == v)
  }

  lemma KeepsViewCompose<T, V>(a: seq<T>, b: seq<T>, c: seq<T>, view: T -> V, v: V)
    requires KeepsView(a, b, view, v) && KeepsView(b, c, view, v)
    ensures KeepsView(a, c, view, v)
  {
    forall k | |a| <= k < |c|
      ensures view(c[k]) == v
    {
      if k < |b| {
        assert view(c[k]) == view(b[k]);
      }
    }
  }

  /**
   * A part of a row that reconciliation never writes (`view`) survives the loop on every old row,
   * and every added row shows the value `v` that all the entries show.
   */
  lemma {:induction false} UpsertAllKeeps<T(!new), V>(tb: Table<T>, rows: seq<T>, seeds: seq<T>, view: T -> V, v: V)
    requires Lawful(tb)
    requires forall row, seed :: view(tb.reconcile(row, seed).0) == view(row)
    requires forall seed, i :: view(tb.withId(seed, i)) == view(seed)
    requires forall s :: s in seeds ==> view(s) == v
    ensures KeepsView(rows, UpsertAll(tb, rows, seeds).rows, view, v)
    decreases |seeds|
  {
    if seeds != [] {
      var mid := UpsertKeepsStep(tb, rows, seeds, view, v);
      if mid.Some? {
        assert forall s :: s in seeds[1..] ==> s in seeds;
        UpsertAllKeeps(tb, mid.value, seeds[1..], view, v);
        KeepsViewCompose(rows, mid.value, UpsertAll(tb, mid.value, seeds[1..]).rows, view, v);
      }
    }
  }

  /**
   * One turn of the loop for UpsertAllKeeps: `None` when the first lookup raised and the loop
   * stopped with the rows as they were; otherwise the rows after the first entry, which keep the
   * view and on which the rest of the loop runs.
   */
  lemma UpsertKeepsStep<T(!new), V>(tb: Table<T>, rows: seq<T>, seeds: seq<T>, view: T -> V, v: V)
    returns (mid: Option<seq<T>>)
    requires Lawful(tb) && seeds != []
    requires forall row, seed :: view(tb.reconcile(row, seed).0) == view(row)
    requires forall seed, i :: view(tb.withId(seed, i)) == view(seed)
    requires view(seeds[0]) == v
    ensures mid.None? ==> UpsertAll(tb, rows, seeds).rows == rows
    ensures mid.Some? ==> KeepsView(rows, mid.value, view, v)
    ensures mid.Some? ==> UpsertAll(tb, rows, seeds).rows == UpsertAll(tb, mid.value, seeds[1..]).rows
  {
    UpsertAllCons(tb, rows, seeds);
    UpsertKeeps(tb, rows, seeds[0], view, v);
    var first := Upsert(tb, rows, seeds[0]);
    mid := if first.failed.None? then Some(first.rows) else None;
  }

  lemma UpsertKeeps<T(!new), V>(tb: Table<T>, rows: seq<T>, seed: T, view: T -> V, v: V)
    requires Lawful(tb)
    requires forall row, seed :: view(tb.reconcile(row, seed).0) == view(row)
    requires forall seed, i :: view(tb.withId(seed, i)) == view(seed)
    requires view(seed) == v
    ensures KeepsView(rows, Upsert(tb, rows, seed).rows, view, v)
  {
    var r := Upsert(tb, rows, seed).rows;
    forall k | |rows| <= k < |r|
      ensures view(r[k]) == v
    {
      assert r[k] == tb.withId(seed, tb.id(r[k]));
    }
  }

  /** A failed run names the entry whose lookup raised. */
  lemma {:induction false} FailedIsAnEntry<T(!new)>(tb: Table<T>, rows: seq<T>, seeds: seq<T>)
    requires Lawful(tb)
    ensures UpsertAll(tb, rows, seeds).failed.Some? ==> UpsertAll(tb, rows, seeds).failed.value in Names(tb, seeds)
    decreases |seeds|
  {
    if seeds != [] {
      UpsertAllCons(tb, rows, seeds);
      var first := Upsert(tb, rows, seeds[0]);
      if first.failed.None? {
        FailedIsAnEntry(tb, first.rows, seeds[1..]);
        assert forall n :: n in Names(tb, seeds[1..]) ==> n in Names(tb, seeds) by {
          forall n | n in Names(tb, seeds[1..]) ensures n in Names(tb, seeds) {
            var k :| 0 <= k < |seeds[1..]| && tb.name(seeds[1..][k]) == n;
            assert seeds[1..][k] == seeds[k + 1];
          }
        }
      }
    }
  }
}
