/**
 * Counting escrowed notes: mergeNotes of packages/xfs-device-service/src/cash-acceptance.ts and
 * createEscrowSnapshot of cash-acceptance-policy.ts. The hash of a snapshot is any function of its contents.
 */
module CashNotes {
  import opened Prelude

  datatype Note = Note(id: int, count: int)

  datatype Snapshot = Snapshot(revision: nat, hash: string, notes: seq<Note>, refused: nat)

  type Hash = (nat, seq<Note>, nat) -> string

  /** All the notes of one id. */
  function Count(notes: seq<Note>, id: int): int {
    if notes == [] then 0
    else (if notes[0].id == id then notes[0].count else 0) + Count(notes[1..], id)
  }

  // ----- mergeNotes -----

  /** counts.set(id, (counts.get(id) ?? 0) + count): a Map keeps the order of first insertion. */
  function AddNote(notes: seq<Note>, n: Note): (r: seq<Note>)
    ensures r != []
  {
    if notes == [] then [n]
    else if notes[0].id == n.id then [Note(n.id, notes[0].count + n.count)] + notes[1..]
    else [notes[0]] + AddNote(notes[1..], n)
  }

  function AddAll(notes: seq<Note>, more: seq<Note>): seq<Note> {
    if more == [] then notes else AddNote(AddAll(notes, more[..|more| - 1]), more[|more| - 1])
  }

  function MergeNotes(left: seq<Note>, right: seq<Note>): seq<Note> {
    AddAll([], left + right)
  }

  predicate DistinctIds(notes: seq<Note>) {
    forall i, j | 0 <= i < j < |notes| :: notes[i].id != notes[j].id
  }

  predicate HasId(notes: seq<Note>, id: int) {
    exists i :: 0 <= i < |notes| && notes[i].id == id
  }

  lemma {:induction false} CountAdd(notes: seq<Note>, n: Note, id: int)
    ensures Count(AddNote(notes, n), id) == Count(notes, id) + if n.id == id then n.count else 0
  {
    if notes == [] {
      assert [n][1..] == [];
    } else if notes[0].id != n.id {
      CountAdd(notes[1..], n, id);
    }
  }

  lemma {:induction false} IdsAdd(notes: seq<Note>, n: Note)
    requires DistinctIds(notes)
    ensures DistinctIds(AddNote(notes, n))
    ensures forall i | 0 <= i < |AddNote(notes, n)| ::
              AddNote(notes, n)[i].id == n.id || HasId(notes, AddNote(notes, n)[i].id)
  {
    var r := AddNote(notes, n);
    if notes != [] {
      var tail := notes[1..];
      forall i | 0 <= i < |notes| ensures HasId(notes, notes[i].id) {
      }
      if notes[0].id != n.id {
        IdsAdd(tail, n);
        var rest := AddNote(tail, n);
        forall i | 0 <= i < |rest|
          ensures rest[i].id != notes[0].id && (rest[i].id == n.id || HasId(notes, rest[i].id))
        {
          if rest[i].id != n.id {
            var k :| 0 <= k < |tail| && tail[k].id == rest[i].id;
            assert notes[k + 1] == tail[k];
          }
        }
        assert r == [notes[0]] + rest;
      }
    }
  }

  lemma {:induction false} CountMerge(notes: seq<Note>, more: seq<Note>, id: int)
    ensures Count(AddAll(notes, more), id) == Count(notes, id) + Count(more, id)
    decreases |more|
  {
    if more != [] {
      var n := |more| - 1;
      CountMerge(notes, more[..n], id);
      CountAdd(AddAll(notes, more[..n]), more[n], id);
      CountConcat(more[..n], [more[n]], id);
      assert more == more[..n] + [more[n]] && [more[n]][1..] == [];
    }
  }

  lemma {:induction false} CountConcat(a: seq<Note>, b: seq<Note>, id: int)
    ensures Count(a + b, id) == Count(a, id) + Count(b, id)
  {
    if a == [] {
      assert a + b == b;
    } else {
      assert (a + b)[1..] == a[1..] + b;
      CountConcat(a[1..], b, id);
    }
  }

  lemma {:induction false} MergedIdsDistinct(notes: seq<Note>, more: seq<Note>)
    requires DistinctIds(notes)
    ensures DistinctIds(AddAll(notes, more))
    decreases |more|
  {
    if more != [] {
      MergedIdsDistinct(notes, more[..|more| - 1]);
      IdsAdd(AddAll(notes, more[..|more| - 1]), more[|more| - 1]);
    }
  }

  /** mergeNotes as the source runs it: a map of counts, and the keys in order of first insertion. */
  method MergeNotesInMap(left: seq<Note>, right: seq<Note>) returns (merged: seq<Note>)
    ensures merged == MergeNotes(left, right)
  {
    var all := left + right;
    var counts: map<int, int> := map[];
    var order: seq<int> := [];
    var index := 0;
    while index < |all|
      invariant 0 <= index <= |all|
      invariant forall i | 0 <= i < |order| :: order[i] in counts
      invariant forall id <- counts :: id in order
      invariant forall i, j | 0 <= i < j < |order| :: order[i] != order[j]
      invariant Listed(counts, order) == AddAll([], all[..index])
    {
      var note := all[index];
      assert all[..index + 1][..index] == all[..index];
      AddListed(counts, order, note);
      if note.id !in counts {
        order := order + [note.id];
      }
      counts := counts[note.id := (if note.id in counts then counts[note.id] else 0) + note.count];
      index := index + 1;
    }
    assert all[..index] == all;
    merged := Listed(counts, order);
  }

  /** The entries of the map in key order. */
  function Listed(counts: map<int, int>, order: seq<int>): seq<Note>
    requires forall i | 0 <= i < |order| :: order[i] in counts
  {
    seq(|order|, i requires 0 <= i < |order| => Note(order[i], counts[order[i]]))
  }

  lemma {:induction false} AddListed(counts: map<int, int>, order: seq<int>, n: Note)
    requires forall i | 0 <= i < |order| :: order[i] in counts
    requires forall i, j | 0 <= i < j < |order| :: order[i] != order[j]
    ensures
      var more := counts[n.id := (if n.id in counts then counts[n.id] else 0) + n.count];
      && (n.id in order ==> Listed(more, order) == AddNote(Listed(counts, order), n))
      && (n.id !in order && n.id !in counts ==> Listed(more, order + [n.id]) == AddNote(Listed(counts, order), n))
    decreases |order|
  {
    var more := counts[n.id := (if n.id in counts then counts[n.id] else 0) + n.count];
    var notes := Listed(counts, order);
    if order != [] {
      var tail := order[1..];
      assert notes[1..] == Listed(counts, tail);
      if order[0] == n.id {
        assert Listed(more, order) == [Note(n.id, notes[0].count + n.count)] + notes[1..];
      } else {
        AddListed(counts, tail, n);
        assert n.id in order ==> n.id in tail;
        assert Listed(more, order) == [notes[0]] + Listed(more, tail);
        if n.id !in order && n.id !in counts {
          assert (order + [n.id])[1..] == tail + [n.id];
          assert Listed(more, order + [n.id]) == [notes[0]] + Listed(more, tail + [n.id]);
        }
      }
    } else if n.id !in counts {
      assert Listed(more, order + [n.id]) == [n];
    }
  }

  // ----- createEscrowSnapshot -----

  /** notes.filter(count > 0). */
  function Positive(notes: seq<Note>): (r: seq<Note>) {
    if notes == [] then []
    else (if notes[0].count > 0 then [notes[0]] else []) + Positive(notes[1..])
  }

  /** A stable sort by id. */
  function Insert(n: Note, sorted: seq<Note>): seq<Note> {
    if sorted == [] || n.id <= sorted[0].id then [n] + sorted else [sorted[0]] + Insert(n, sorted[1..])
  }

  function SortById(notes: seq<Note>): seq<Note> {
    if notes == [] then [] else Insert(notes[0], SortById(notes[1..]))
  }

  function EscrowSnapshot(hash: Hash, notes: seq<Note>, refused: int, revision: nat): Snapshot {
    var sorted := SortById(Positive(notes));
    Snapshot(revision, hash(revision, sorted, Max(0, refused)), sorted, Max(0, refused))
  }

  lemma {:induction false} NoSuchId(notes: seq<Note>, id: int)
    requires forall i | 0 <= i < |notes| :: notes[i].id != id
    ensures Count(notes, id) == 0
  {
    if notes != [] {
      NoSuchId(notes[1..], id);
    }
  }

  lemma {:induction false} PositiveIds(notes: seq<Note>, id: int)
    requires forall i | 0 <= i < |notes| :: notes[i].id != id
    ensures forall i | 0 <= i < |Positive(notes)| :: Positive(notes)[i].id != id
  {
    if notes != [] {
      PositiveIds(notes[1..], id);
    }
  }

  lemma {:induction false} CountPositive(notes: seq<Note>, id: int)
    requires DistinctIds(notes)
    ensures Count(Positive(notes), id) == Max(0, Count(notes, id))
  {
    if notes != [] {
      var tail := notes[1..];
      CountPositive(tail, id);
      if notes[0].id == id {
        NoSuchId(tail, id);
        PositiveIds(tail, id);
        NoSuchId(Positive(tail), id);
      }
      if notes[0].count > 0 {
        assert ([notes[0]] + Positive(tail))[1..] == Positive(tail);
      } else {
        assert [] + Positive(tail) == Positive(tail);
      }
    }
  }

  lemma {:induction false} CountInsert(n: Note, sorted: seq<Note>, id: int)
    ensures Count(Insert(n, sorted), id) == Count(sorted, id) + if n.id == id then n.count else 0
  {
    var r := Insert(n, sorted);
    if sorted == [] || n.id <= sorted[0].id {
      assert r[1..] == sorted;
    } else {
      assert r[1..] == Insert(n, sorted[1..]);
      CountInsert(n, sorted[1..], id);
    }
  }

  lemma {:induction false} CountSort(notes: seq<Note>, id: int)
    ensures Count(SortById(notes), id) == Count(notes, id)
  {
    if notes != [] {
      CountSort(notes[1..], id);
      CountInsert(notes[0], SortById(notes[1..]), id);
    }
  }

  /** A batch changes the count of each note id by what the device reported, but never below zero. */
  lemma BatchCount(hash: Hash, before: seq<Note>, reported: seq<Note>, refused: int, revision: nat, id: int)
    ensures
      Count(EscrowSnapshot(hash, MergeNotes(before, reported), refused, revision).notes, id)
      == Max(0, Count(before, id) + Count(reported, id))
  {
    CountMerge([], before + reported, id);
    CountConcat(before, reported, id);
    MergedIdsDistinct([], before + reported);
    CountPositive(MergeNotes(before, reported), id);
    CountSort(Positive(MergeNotes(before, reported)), id);
  }

  // ----- All batches of an operation -----

  /** What the device reports for one cash-in. */
  datatype Report = Report(notes: seq<Note>, refused: int)

  /** The snapshot after these batches; None before the first. */
  function AfterBatches(hash: Hash, reports: seq<Report>): (s: Option<Snapshot>)
    ensures s.Some? <==> reports != []
  {
    if reports == [] then None
    else
      var last, before := reports[|reports| - 1], AfterBatches(hash, reports[..|reports| - 1]);
      Some(NextSnapshot(hash, before, last, |reports|))
  }

  function NextSnapshot(hash: Hash, before: Option<Snapshot>, report: Report, revision: nat): Snapshot {
    EscrowSnapshot(hash,
      MergeNotes(if before.Some? then before.value.notes else [], report.notes),
      (if before.Some? then before.value.refused else 0) + report.refused,
      revision)
  }

  function Sum(changes: seq<int>): int {
    if changes == [] then 0 else Sum(changes[..|changes| - 1]) + changes[|changes| - 1]
  }

  /** A running count that never goes below zero. */
  function Clamped(changes: seq<int>): nat {
    if changes == [] then 0 else Max(0, Clamped(changes[..|changes| - 1]) + changes[|changes| - 1])
  }

  /** The clamped count is the plain sum exactly when no prefix of the changes sums to less than zero. */
  lemma {:induction false} ClampedIsSumIff(changes: seq<int>)
    ensures Clamped(changes) >= Sum(changes)
    ensures Clamped(changes) == Sum(changes) <==> forall k | 0 <= k <= |changes| :: Sum(changes[..k]) >= 0
  {
    if changes == [] {
      assert forall k | 0 <= k <= |changes| :: changes[..k] == changes;
    } else {
      var n := |changes| - 1;
      var before := changes[..n];
      ClampedIsSumIff(before);
      assert changes[..n + 1] == changes;
      assert forall k | 0 <= k <= n :: before[..k] == changes[..k];
    }
  }

  function NoteChanges(reports: seq<Report>, id: int): seq<int> {
    seq(|reports|, i requires 0 <= i < |reports| => Count(reports[i].notes, id))
  }

  function RefusedChanges(reports: seq<Report>): seq<int> {
    seq(|reports|, i requires 0 <= i < |reports| => reports[i].refused)
  }

  lemma {:induction false} SnapshotCounts(hash: Hash, reports: seq<Report>, id: int)
    requires reports != []
    ensures Count(AfterBatches(hash, reports).value.notes, id) == Clamped(NoteChanges(reports, id))
    ensures AfterBatches(hash, reports).value.refused == Clamped(RefusedChanges(reports))
    decreases |reports|
  {
    var n := |reports| - 1;
    var before := reports[..n];
    assert NoteChanges(reports, id)[..n] == NoteChanges(before, id);
    assert RefusedChanges(reports)[..n] == RefusedChanges(before);
    var last := AfterBatches(hash, before);
    if before != [] {
      SnapshotCounts(hash, before, id);
    }
    BatchCount(hash, if last.Some? then last.value.notes else [], reports[n].notes,
               (if last.Some? then last.value.refused else 0) + reports[n].refused, n + 1, id);
  }

  /**
   * Conservation: a snapshot's count of a note id, and its refused count, are the sums of what the device reported
   * exactly when the running sums never were negative; so always, for a device that reports no negative counts.
   */
  lemma NotesAreConserved(hash: Hash, reports: seq<Report>, id: int)
    requires reports != []
    ensures
      var s := AfterBatches(hash, reports).value;
      && (Count(s.notes, id) == Sum(NoteChanges(reports, id))
          <==> forall k | 0 <= k <= |reports| :: Sum(NoteChanges(reports, id)[..k]) >= 0)
      && (s.refused == Sum(RefusedChanges(reports))
          <==> forall k | 0 <= k <= |reports| :: Sum(RefusedChanges(reports)[..k]) >= 0)
  {
    SnapshotCounts(hash, reports, id);
    ClampedIsSumIff(NoteChanges(reports, id));
    ClampedIsSumIff(RefusedChanges(reports));
  }

  lemma {:induction false} SumsOfNaturals(changes: seq<int>)
    requires forall i | 0 <= i < |changes| :: changes[i] >= 0
    ensures forall k | 0 <= k <= |changes| :: Sum(changes[..k]) >= 0
  {
    if changes == [] {
      assert forall k | 0 <= k <= |changes| :: changes[..k] == changes;
    } else {
      var n := |changes| - 1;
      SumsOfNaturals(changes[..n]);
      assert changes[..n + 1] == changes;
      assert forall k | 0 <= k <= n :: changes[..n][..k] == changes[..k];
    }
  }

  /** A device that reports no negative counts loses no note and no refusal. */
  lemma HonestDeviceIsConserved(hash: Hash, reports: seq<Report>, id: int)
    requires reports != []
    requires forall i | 0 <= i < |reports| :: Count(reports[i].notes, id) >= 0 && reports[i].refused >= 0
    ensures Count(AfterBatches(hash, reports).value.notes, id) == Sum(NoteChanges(reports, id))
    ensures AfterBatches(hash, reports).value.refused == Sum(RefusedChanges(reports))
  {
    SumsOfNaturals(NoteChanges(reports, id));
    SumsOfNaturals(RefusedChanges(reports));
    NotesAreConserved(hash, reports, id);
  }

  // ----- The form of a snapshot -----

  predicate Ascending(notes: seq<Note>) {
    forall i, j | 0 <= i < j < |notes| :: notes[i].id < notes[j].id
  }

  lemma {:induction false} PositiveKeeps(notes: seq<Note>)
    requires DistinctIds(notes)
    ensures DistinctIds(Positive(notes)) && forall i | 0 <= i < |Positive(notes)| :: Positive(notes)[i].count > 0
  {
    if notes != [] {
      PositiveKeeps(notes[1..]);
      PositiveIds(notes[1..], notes[0].id);
    }
  }

  lemma {:induction false} InsertAscends(n: Note, sorted: seq<Note>)
    requires Ascending(sorted) && forall i | 0 <= i < |sorted| :: sorted[i].id != n.id && sorted[i].count > 0
    requires n.count > 0
    ensures Ascending(Insert(n, sorted))
    ensures forall i | 0 <= i < |Insert(n, sorted)| :: Insert(n, sorted)[i].count > 0
    ensures forall i | 0 <= i < |Insert(n, sorted)| :: Insert(n, sorted)[i] == n || Insert(n, sorted)[i] in sorted
  {
    if sorted != [] && n.id > sorted[0].id {
      InsertAscends(n, sorted[1..]);
      assert forall i | 0 <= i < |sorted| - 1 :: sorted[1..][i] in sorted;
    }
  }

  lemma {:induction false} SortAscends(notes: seq<Note>)
    requires DistinctIds(notes) && forall i | 0 <= i < |notes| :: notes[i].count > 0
    ensures Ascending(SortById(notes)) && forall i | 0 <= i < |SortById(notes)| :: SortById(notes)[i].count > 0
    ensures forall n <- SortById(notes) :: n in notes
  {
    if notes != [] {
      var sorted := SortById(notes[1..]);
      SortAscends(notes[1..]);
      forall i | 0 <= i < |sorted| ensures sorted[i].id != notes[0].id {
        assert sorted[i] in notes[1..];
      }
      InsertAscends(notes[0], sorted);
    }
  }

  /** A snapshot lists each note id once, in ascending order, with a positive count. */
  lemma SnapshotIsCanonical(hash: Hash, before: Option<Snapshot>, report: Report, revision: nat)
    ensures
      var notes := NextSnapshot(hash, before, report, revision).notes;
      Ascending(notes) && forall i | 0 <= i < |notes| :: notes[i].count > 0
  {
    var earlier := if before.Some? then before.value.notes else [];
    MergedIdsDistinct([], earlier + report.notes);
    PositiveKeeps(MergeNotes(earlier, report.notes));
    SortAscends(Positive(MergeNotes(earlier, report.notes)));
  }
}
