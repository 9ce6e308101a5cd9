/** The snapshot delta protocol: `diff` compares two records of one entity
    field by field, and `diff_dicts` compares two snapshots (entity id to
    record) and splits the result into creations, updates and removals. The
    client reconciles its scene against this stream, so the central property
    is that applying the delta to the previous snapshot rebuilds the current
    one. */
module Deltas {

  /** A field value of a record: a number, NaN, a string or a list of
      strings (a parsed colour). */
  datatype Value = Num(x: real) | NaN | Text(s: string) | TextList(items: seq<string>)

  /** One entity's record: field name to value. */
  type Record = map<string, Value>

  /** An entity id to the entity's record. */
  type Snapshot = map<string, Record>

  /** What `diff_dicts` returns. */
  datatype Delta = Delta(creations: Snapshot, updates: Snapshot, removals: set<string>)

  predicate Changed(prev: Record, next: Record, k: string)
    requires k in next
  {
    next[k] != NaN && (k !in prev || prev[k] != next[k])
  }

  /** `diff(prev, next)`: the fields of `next` whose value differs from the one
      in `prev`, with their new value. A NaN in `next` is never reported. */
  function Diff(prev: Record, next: Record): (r: Record)
    ensures r.Keys <= next.Keys
    ensures forall k | k in r :: r[k] == next[k] && r[k] != NaN
    ensures forall k | k in next :: k in r <==> Changed(prev, next, k)
  {
    map k | k in next && Changed(prev, next, k) :: next[k]
  }

  /** `diff_dicts(prev, next)` */
  function DiffDicts(prev: Snapshot, next: Snapshot): (d: Delta)
    ensures d.creations.Keys == next.Keys - prev.Keys
    ensures d.removals == prev.Keys - next.Keys
    ensures d.updates.Keys <= prev.Keys * next.Keys
    ensures forall id | id in d.creations :: d.creations[id] == next[id]
    ensures forall id | id in d.updates :: d.updates[id] == Diff(prev[id], next[id]) && d.updates[id] != map[]
  {
    Delta(
      map id | id in next && id !in prev :: next[id],
      map id | id in next && id in prev && Diff(prev[id], next[id]) != map[] :: Diff(prev[id], next[id]),
      prev.Keys - next.Keys)
  }

  /* ---------------------------------------------------------------------- */
  /* The receiving side                                                     */
  /* ---------------------------------------------------------------------- */

  /** The client's reconciliation: drop the removals, add the creations and
      overwrite the reported fields of the updated entities. */
  function Reconcile(prev: Snapshot, d: Delta): Snapshot
  {
    map id | id in (prev.Keys - d.removals) + d.creations.Keys ::
      if id in d.creations then d.creations[id]
      else if id in d.updates then prev[id] + d.updates[id]
      else prev[id]
  }

  /** The fields of `r` that are not NaN. */
  function Known(r: Record): (k: Record)
  {
    map f | f in r && r[f] != NaN :: r[f]
  }

  /** What a client that started from `prev` holds once it has applied the
      delta towards `next`: every entity of `next`; a new entity with its full
      record; an old one with its old fields, overwritten by every field of
      `next` that is not NaN. */
  function Settled(prev: Snapshot, next: Snapshot): Snapshot
  {
    map id | id in next :: if id in prev then prev[id] + Known(next[id]) else next[id]
  }

  lemma DiffOverwrite(prev: Record, next: Record)
    ensures prev + Diff(prev, next) == prev + Known(next)
  {
    var a, b := prev + Diff(prev, next), prev + Known(next);
    assert a.Keys == b.Keys;
    forall k | k in a ensures a[k] == b[k] { }
  }

  lemma ReconcileEntry(prev: Snapshot, next: Snapshot, id: string)
    requires id in next
    ensures id in Reconcile(prev, DiffDicts(prev, next))
    ensures Reconcile(prev, DiffDicts(prev, next))[id] == Settled(prev, next)[id]
  {
    var d := DiffDicts(prev, next);
    if id in prev {
      assert id !in d.creations && id !in d.removals;
      DiffOverwrite(prev[id], next[id]);
      if id !in d.updates {
        assert Diff(prev[id], next[id]) == map[];
        assert prev[id] + map[] == prev[id];
      }
    } else {
      assert id in d.creations;
    }
  }

  /** Applying `diff_dicts(prev, next)` to `prev` gives exactly `Settled(prev, next)`:
      nothing is lost, nothing stale survives apart from what NaN hides. */
  lemma ReconcileDiffDicts(prev: Snapshot, next: Snapshot)
    ensures Reconcile(prev, DiffDicts(prev, next)) == Settled(prev, next)
  {
    var d := DiffDicts(prev, next);
    var r, s := Reconcile(prev, d), Settled(prev, next);
    assert r.Keys == next.Keys;
    forall id | id in next
      ensures r[id] == s[id]
    {
      ReconcileEntry(prev, next, id);
    }
  }

  /** When the new records hold no NaN and no entity loses a field, the delta
      rebuilds the new snapshot exactly. */
  lemma ReconcileRebuildsSnapshot(prev: Snapshot, next: Snapshot)
    requires forall id | id in next :: NaN !in next[id].Values
    requires forall id | id in next && id in prev :: prev[id].Keys <= next[id].Keys
    ensures Reconcile(prev, DiffDicts(prev, next)) == next
  {
    ReconcileDiffDicts(prev, next);
    var s := Settled(prev, next);
    forall id | id in next
      ensures s[id] == next[id]
    {
      if id in prev { KnownComplete(prev[id], next[id]); }
    }
  }

  lemma KnownComplete(prev: Record, next: Record)
    requires NaN !in next.Values
    requires prev.Keys <= next.Keys
    ensures prev + Known(next) == next
  {
    var known := Known(next);
    assert known.Keys == next.Keys by {
      forall f | f in next ensures f in known {
        assert next[f] in next.Values;
      }
    }
  }

  /** A record compared with itself gives an empty diff, and a snapshot
      compared with itself gives an empty delta. */
  lemma DiffDictsIdentical(s: Snapshot)
    ensures DiffDicts(s, s) == Delta(map[], map[], {})
  {
    var d := DiffDicts(s, s);
    forall id | id in s ensures Diff(s[id], s[id]) == map[] {
      assert forall k | k in s[id] :: !Changed(s[id], s[id], k);
    }
    assert d.updates == map[];
  }

  /** An entity appears in `updates` exactly when one of its fields changed to
      a value that is not NaN. */
  lemma UpdatesExactlyChangedEntities(prev: Snapshot, next: Snapshot, id: string)
    requires id in prev && id in next
    ensures id in DiffDicts(prev, next).updates <==>
      exists k :: k in next[id] && Changed(prev[id], next[id], k)
  {
    var diff := Diff(prev[id], next[id]);
    if exists k :: k in next[id] && Changed(prev[id], next[id], k) {
      var k :| k in next[id] && Changed(prev[id], next[id], k);
      assert k in diff;
    }
  }

  /* ---------------------------------------------------------------------- */
  /* The cases of backend/server/deltas_test.py                             */
  /* ---------------------------------------------------------------------- */

  lemma DiffReportsChangedField()
    ensures Diff(map["x" := Num(2.0), "y" := Num(1.0)], map["x" := Num(1.0), "y" := Num(1.0)])
         == map["x" := Num(1.0)]
  {
    var r := Diff(map["x" := Num(2.0), "y" := Num(1.0)], map["x" := Num(1.0), "y" := Num(1.0)]);
    assert "x" in r;
    assert r.Keys == {"x"};
  }

  lemma DiffDictsCreatesAndRemoves()
    ensures DiffDicts(map["obj2" := map["x" := Num(2.0)]], map["obj1" := map["x" := Num(1.0)]])
         == Delta(map["obj1" := map["x" := Num(1.0)]], map[], {"obj2"})
  {
    var d := DiffDicts(map["obj2" := map["x" := Num(2.0)]], map["obj1" := map["x" := Num(1.0)]]);
    assert d.creations.Keys == {"obj1"};
    assert d.updates.Keys == {};
  }

  lemma DiffDictsIgnoresNaN()
    ensures DiffDicts(
              map["veh1" := map["x" := Num(1.234), "y" := Num(3.456), "angle" := Num(354.0)]],
              map["veh1" := map["x" := NaN, "y" := NaN, "angle" := Num(270.0)]])
         == Delta(map[], map["veh1" := map["angle" := Num(270.0)]], {})
  {
    var prev := map["x" := Num(1.234), "y" := Num(3.456), "angle" := Num(354.0)];
    var next := map["x" := NaN, "y" := NaN, "angle" := Num(270.0)];
    var r := Diff(prev, next);
    assert "angle" in r;
    assert !Changed(prev, next, "x") && !Changed(prev, next, "y");
    assert r.Keys == {"angle"};
    assert r == map["angle" := Num(270.0)];
    var d := DiffDicts(map["veh1" := prev], map["veh1" := next]);
    assert "veh1" in d.updates;
    assert d.updates.Keys == {"veh1"};
  }
}
