/** The cache files as an abstract map from path to contents, what reading
    one gives back, and how a sequence of single-slot background saves
    changes them. */
module CacheStore {
  import opened Bars

  /** What a cache path holds: the rows last written to it as CSV, or
      something that does not parse as a cache file. */
  datatype File = Csv(rows: seq<Row>) | Unreadable

  type Disk = map<string, File>

  /** A save handed to the background thread: the frame and its target path. */
  datatype Snapshot = Snapshot(path: string, rows: seq<Row>)

  /** Reading a cache file: a missing or unparsable file gives an empty frame
      and never raises; otherwise every row holding a missing cell is dropped. */
  function Load(disk: Disk, path: string): (rows: seq<Row>)
    ensures forall r :: r in rows ==> Complete(r)
    ensures path !in disk || disk[path].Unreadable? ==> rows == []
    ensures path in disk && disk[path].Csv? ==> |rows| <= |disk[path].rows|
  {
    if path in disk && disk[path].Csv? then DropIncomplete(disk[path].rows) else []
  }

  /** After a save of `rows` has landed, reading the file gives back exactly the
      rows without a missing cell, and all of them when none has one. */
  lemma SaveThenLoad(disk: Disk, path: string, rows: seq<Row>)
    ensures Load(disk[path := Csv(rows)], path) == DropIncomplete(rows)
    ensures (forall r :: r in rows ==> Complete(r)) ==> Load(disk[path := Csv(rows)], path) == rows
  {
    if forall r :: r in rows ==> Complete(r) {
      FilterAllPass(rows, (r: Row) => Complete(r));
    }
  }

  /** Reading back what was read changes nothing: loading is idempotent. */
  lemma LoadSaveLoad(disk: Disk, path: string)
    ensures Load(disk[path := Csv(Load(disk, path))], path) == Load(disk, path)
  {
    SaveThenLoad(disk, path, Load(disk, path));
  }

  /** The disk once the save in flight, if any, has finished. */
  function Landed(disk: Disk, slot: Option<Snapshot>): (d: Disk)
    ensures slot.None? ==> d == disk
    ensures slot.Some? ==> slot.value.path in d && d[slot.value.path] == Csv(slot.value.rows)
    ensures forall p :: p in disk ==> p in d
  {
    match slot
    case None => disk
    case Some(s) => disk[s.path := Csv(s.rows)]
  }

  /** The disk and the save slot after requesting saves of `snaps` to `path`,
      one after the other: each request first waits for the save in flight to
      land, then hands its own frame to a new background save. */
  function Replay(disk: Disk, slot: Option<Snapshot>, path: string, snaps: seq<seq<Row>>): (Disk, Option<Snapshot>)
  {
    if snaps == [] then (disk, slot)
    else
      var before := Replay(disk, slot, path, snaps[..|snaps| - 1]);
      (Landed(before.0, before.1), Some(Snapshot(path, snaps[|snaps| - 1])))
  }

  lemma ReplayStep(disk: Disk, slot: Option<Snapshot>, path: string, snaps: seq<seq<Row>>, rows: seq<Row>)
    ensures var (d, s) := Replay(disk, slot, path, snaps);
      Replay(disk, slot, path, snaps + [rows]) == (Landed(d, s), Some(Snapshot(path, rows)))
  {
    assert (snaps + [rows])[..|snaps|] == snaps;
  }

  /** After at least one save request, the last frame is in flight, the
      previous one (or the save in flight before) has landed, and once the
      last lands the file holds exactly the last frame; other paths only see
      the save that was in flight before. */
  lemma {:induction false} ReplayEffect(disk: Disk, slot: Option<Snapshot>, path: string, snaps: seq<seq<Row>>)
    requires snaps != []
    ensures var (d, s) := Replay(disk, slot, path, snaps);
      && s == Some(Snapshot(path, snaps[|snaps| - 1]))
      && d == (if |snaps| == 1 then Landed(disk, slot)
               else Landed(disk, slot)[path := Csv(snaps[|snaps| - 2])])
      && Landed(d, s) == Landed(disk, slot)[path := Csv(snaps[|snaps| - 1])]
    decreases |snaps|
  {
    var front := snaps[..|snaps| - 1];
    if |snaps| > 1 {
      ReplayEffect(disk, slot, path, front);
      assert front[|front| - 1] == snaps[|snaps| - 2];
    }
  }
}
