// The PostgreSQL result writer: its row counter and tracker beside the rows the database
// has committed, over any sequence of writes, failed transactions and a final status.
module HarnessWriter {
  import opened Wrappers
  import opened Collections
  import opened HarnessMatrix

  datatype Status = Running | Completed | Failed

  // One committed result row.
  datatype ResultRow = ResultRow(index: nat, key: Key)

  // What the database holds for one run.
  class Database {
    var results: seq<ResultRow>
    var resultCount: nat
    var status: Status
    var observedPayload: seq<Key>

    constructor ()
      ensures results == [] && resultCount == 0 && status == Running && observedPayload == []
    {
      results, resultCount, status, observedPayload := [], 0, Running, [];
    }

    // One transaction: the row and the new count are committed together or not at all.
    method CommitRow(row: ResultRow, count: nat, fails: bool)
      modifies this`results, this`resultCount
      ensures fails ==> results == old(results) && resultCount == old(resultCount)
      ensures !fails ==> results == old(results) + [row] && resultCount == count
    {
      if !fails { results, resultCount := results + [row], count; }
    }

    method UpdateRun(newStatus: Status, count: nat, payload: seq<Key>, fails: bool)
      modifies this`status, this`resultCount, this`observedPayload
      ensures fails ==> status == old(status) && resultCount == old(resultCount) && observedPayload == old(observedPayload)
      ensures !fails ==> status == newStatus && resultCount == count && observedPayload == payload
    {
      if !fails { status, resultCount, observedPayload := newStatus, count, payload; }
    }
  }

  datatype WriteError = NotOpen | Rejected(error: TrackError) | TransactionFailed

  class Writer {
    const tracker: Tracker
    const db: Database
    var rowIndex: nat
    var open: bool

    // Committed rows are numbered in order, and their keys are the observed ones, once each.
    ghost predicate Valid()
      reads this, tracker, db
    {
      && tracker.Valid()
      && rowIndex == |db.results| == db.resultCount
      && (forall i | 0 <= i < |db.results| :: db.results[i].index == i)
      && (forall i | 0 <= i < |db.results| :: db.results[i].key in tracker.observed)
      && (forall k | k in tracker.observed :: Committed(k))
      && (forall i, j | 0 <= i < j < |db.results| :: db.results[i].key != db.results[j].key)
    }

    ghost predicate Committed(k: Key)
      reads this, db
    {
      exists i :: 0 <= i < |db.results| && db.results[i].key == k
    }

    constructor (m: Matrix)
      requires m.Ok()
      ensures Valid() && fresh(tracker) && fresh(db) && !open && tracker.matrix == m
      ensures tracker.observed == {} && db.status == Running
    {
      tracker := new Tracker(m);
      db := new Database();
      rowIndex, open := 0, false;
    }

    // Inserting the run, its matrix and its solver versions may fail at any of the three; a
    // failure after the first records the run as failed, unless that update fails too.
    method Open(failsAt: nat, finishFails: bool) returns (ok: bool)
      requires Valid() && !open && tracker.observed == {} && db.status == Running
      modifies this`open, db
      ensures Valid() && tracker.observed == {}
      ensures ok == open && (ok <==> failsAt >= 3)
      ensures db.status == if 0 < failsAt < 3 && !finishFails then Failed else Running
      ensures 0 < failsAt < 3 && !finishFails ==> db.observedPayload == []
      ensures failsAt == 0 || failsAt >= 3 || finishFails ==> db.observedPayload == old(db.observedPayload)
    {
      if failsAt == 0 { return false; }
      if failsAt < 3 {
        var payload := SortedObserved();
        HasMember(payload);
        db.UpdateRun(Failed, rowIndex, payload, finishFails);
        return false;
      }
      open := true;
      return true;
    }

    // The observed keys in order, as the hash reads them.
    method SortedObserved() returns (payload: seq<Key>)
      requires Valid()
      ensures PayloadOf(tracker.observed, payload)
    {
      var listed: seq<Key> := [];
      var rows := db.results;
      for i := 0 to |rows|
        invariant |listed| == i && forall l | 0 <= l < i :: listed[l] == rows[l].key
      {
        listed := listed + [rows[i].key];
      }
      SortedMeaning(listed);
      forall k ensures k in listed <==> k in tracker.observed {
        if k in tracker.observed {
          assert Committed(k);
          var i :| 0 <= i < |db.results| && db.results[i].key == k;
          assert listed[i] == k;
        }
      }
      payload := Sorted(listed);
    }

    // Writes one row; the tracker and the counter move only after the commit.
    method WriteRow(key: Key, transactionFails: bool) returns (r: Option<WriteError>)
      requires Valid()
      modifies this`rowIndex, tracker`observed, db`results, db`resultCount
      ensures Valid()
      ensures r.None? <==> open && key in tracker.matrix.expected && key !in old(tracker.observed) && !transactionFails
      ensures r == Some(NotOpen) <==> !open
      ensures r == Some(Rejected(Unexpected(key))) <==> open && key !in tracker.matrix.expected
      ensures r == Some(Rejected(Duplicate(key))) <==> open && key in old(tracker.observed)
      ensures r == Some(TransactionFailed) <==>
        open && key in tracker.matrix.expected && key !in old(tracker.observed) && transactionFails
      ensures r.None? ==> tracker.observed == old(tracker.observed) + {key} && rowIndex == old(rowIndex) + 1
      ensures r.None? ==> db.results == old(db.results) + [ResultRow(old(rowIndex), key)]
      ensures r.Some? ==> tracker.observed == old(tracker.observed) && rowIndex == old(rowIndex) && db.results == old(db.results)
    {
      if !open { return Some(NotOpen); }
      var refused := tracker.EnsureCanObserve(key);
      if refused.Some? { return Some(Rejected(refused.value)); }
      ghost var before := db.results;
      var next := rowIndex + 1;
      db.CommitRow(ResultRow(rowIndex, key), next, transactionFails);
      if transactionFails { return Some(TransactionFailed); }
      var marked := tracker.MarkObserved(key);
      rowIndex := next;
      RowCommitted(before, key, old(tracker.observed));
      return None;
    }

    lemma RowCommitted(before: seq<ResultRow>, key: Key, observed: set<Key>)
      requires db.results == before + [ResultRow(|before|, key)] && key !in observed
      requires forall i | 0 <= i < |before| :: before[i].key in observed
      requires forall k | k in observed :: exists i :: 0 <= i < |before| && before[i].key == k
      requires forall i, j | 0 <= i < j < |before| :: before[i].key != before[j].key
      ensures forall k | k in observed + {key} :: Committed(k)
      ensures forall i, j | 0 <= i < j < |db.results| :: db.results[i].key != db.results[j].key
    {
      forall k | k in observed + {key} ensures Committed(k) {
        if k in observed {
          var i :| 0 <= i < |before| && before[i].key == k;
          assert db.results[i].key == k;
        } else {
          assert db.results[|before|].key == k;
        }
      }
      assert forall i | 0 <= i < |before| :: db.results[i] == before[i];
    }

    // Completed exactly without exception and with every expected key observed, which is
    // when the recorded payload is the expected one.
    method Finish(exception: bool, updateFails: bool) returns (status: Status)
      requires Valid() && open
      modifies this`open, db`status, db`resultCount, db`observedPayload
      ensures Valid() && !open && tracker.observed == old(tracker.observed) && db.results == old(db.results)
      ensures status == Completed <==> !exception && tracker.Complete()
      ensures status != Completed ==> status == Failed
      ensures !updateFails ==> db.status == status && db.resultCount == |db.results|
      ensures updateFails ==>
        db.status == old(db.status) && db.resultCount == old(db.resultCount) && db.observedPayload == old(db.observedPayload)
      ensures !updateFails ==> PayloadOf(tracker.observed, db.observedPayload)
      ensures !updateFails ==> (db.observedPayload == tracker.matrix.expected <==> tracker.Complete())
    {
      if exception {
        status := Failed;
      } else {
        var missing := tracker.AssertComplete();
        status := if missing.Some? then Failed else Completed;
      }
      var payload := SortedObserved();
      db.UpdateRun(status, rowIndex, payload, updateFails);
      open := false;
      CompleteIsPayload(payload);
    }

    lemma CompleteIsPayload(payload: seq<Key>)
      requires Valid() && PayloadOf(tracker.observed, payload)
      ensures payload == tracker.matrix.expected <==> tracker.Complete()
    {
      ExpectedMeaning(tracker.matrix);
      if tracker.Complete() {
        forall k ensures k in payload <==> k in tracker.matrix.expected {
        }
        SortedUnique(payload, tracker.matrix.expected);
      }
      if payload == tracker.matrix.expected {
        forall k | k in tracker.matrix.expected ensures k in tracker.observed {
          assert k in payload;
        }
      }
    }

    // Completed runs hold one committed row per expected key.
    lemma CompletedRows()
      requires Valid() && tracker.Complete()
      ensures |db.results| == |tracker.matrix.cases| * (|tracker.matrix.limits| * |tracker.matrix.solvers|)
      ensures forall k :: k in tracker.matrix.expected <==> Committed(k)
    {
      ExpectedMeaning(tracker.matrix);
      forall k
        ensures k in tracker.matrix.expected <==> Committed(k)
        ensures Committed(k) <==> RowFor(db.results, k)
      {
        if k in tracker.matrix.expected { assert k in tracker.observed; }
      }
      RowPerKey(db.results, tracker.matrix.expected);
    }
  }

  // ----- any sequence of writes -----

  // A write of a row, and whether its transaction fails.
  datatype Write = Write(key: Key, fails: bool)

  // Keys the writes commit, in order.
  ghost function CommittedKeys(expected: seq<Key>, writes: seq<Write>): seq<Key> {
    if writes == [] then []
    else
      var (before, last) := (CommittedKeys(expected, writes[..|writes| - 1]), writes[|writes| - 1]);
      if !last.fails && last.key in expected && last.key !in before then before + [last.key] else before
  }

  // Runs the writes one after another, going on after a refused or failed one.
  method Replay(w: Writer, writes: seq<Write>)
    requires w.Valid() && w.open && w.rowIndex == 0
    modifies w`rowIndex, w.tracker`observed, w.db`results, w.db`resultCount
    ensures w.Valid() && w.open
    ensures Keys(w.db.results) == CommittedKeys(w.tracker.matrix.expected, writes)
  {
    for i := 0 to |writes|
      invariant w.Valid() && w.open && Keys(w.db.results) == CommittedKeys(w.tracker.matrix.expected, writes[..i])
    {
      assert writes[..i + 1][..i] == writes[..i];
      ghost var before := w.db.results;
      ObservedAreCommitted(w, writes[i].key);
      var error := w.WriteRow(writes[i].key, writes[i].fails);
      assert error.None? ==> Keys(w.db.results) == Keys(before) + [writes[i].key];
    }
    assert writes[..|writes|] == writes;
  }

  ghost function Keys(rows: seq<ResultRow>): (ks: seq<Key>)
    ensures |ks| == |rows| && forall i | 0 <= i < |rows| :: ks[i] == rows[i].key
  {
    seq(|rows|, i requires 0 <= i < |rows| => rows[i].key)
  }

  lemma ObservedAreCommitted(w: Writer, key: Key)
    requires w.Valid()
    ensures key in w.tracker.observed <==> key in Keys(w.db.results)
  {
    if key in w.tracker.observed {
      assert w.Committed(key);
      var i :| 0 <= i < |w.db.results| && w.db.results[i].key == key;
      assert Keys(w.db.results)[i] == key;
    }
  }

  // Whatever fails, committed keys are expected and never repeat.
  lemma {:induction false} CommittedMeaning(expected: seq<Key>, writes: seq<Write>)
    ensures NoRepeats(CommittedKeys(expected, writes))
    ensures forall k | k in CommittedKeys(expected, writes) :: k in expected && Write(k, false) in writes
  {
    if writes != [] {
      var init, last := writes[..|writes| - 1], writes[|writes| - 1];
      CommittedMeaning(expected, init);
      assert writes == init + [last];
    }
  }

  ghost function Clean(keys: seq<Key>): (writes: seq<Write>)
    ensures |writes| == |keys| && forall i | 0 <= i < |keys| :: writes[i] == Write(keys[i], false)
  {
    seq(|keys|, i requires 0 <= i < |keys| => Write(keys[i], false))
  }

  // The writes of a run without failures commit every expected key, in loop order.
  lemma {:induction false} CleanRun(expected: seq<Key>, keys: seq<Key>)
    requires NoRepeats(keys) && forall k | k in keys :: k in expected
    ensures CommittedKeys(expected, Clean(keys)) == keys
  {
    if keys != [] {
      var init, last := keys[..|keys| - 1], keys[|keys| - 1];
      assert keys == init + [last];
      CleanRun(expected, init);
      assert Clean(keys)[..|keys| - 1] == Clean(init);
      assert last !in init;
    }
  }

  ghost predicate RowFor(rows: seq<ResultRow>, k: Key) {
    exists i :: 0 <= i < |rows| && rows[i].key == k
  }

  // Rows with distinct keys, one for every listed key and no other, are as many.
  lemma RowPerKey(rows: seq<ResultRow>, listed: seq<Key>)
    requires StrictlySorted(listed) && forall k :: k in listed <==> RowFor(rows, k)
    requires forall i, j | 0 <= i < j < |rows| :: rows[i].key != rows[j].key
    ensures |rows| == |listed|
  {
    var keys := seq(|rows|, i requires 0 <= i < |rows| => rows[i].key);
    SortedMeaning(keys);
    forall k ensures k in keys <==> RowFor(rows, k) {
      if RowFor(rows, k) {
        var i :| 0 <= i < |rows| && rows[i].key == k;
        assert keys[i] == k;
      }
    }
    SortedUnique(Sorted(keys), listed);
  }
}
