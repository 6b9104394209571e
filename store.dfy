/**
 `UpWorkJobScraper.append_to_csv` (main.py:112-126): append the new rows to
 `job_listings.csv`, read the whole file back, drop every row whose
 (title, payment info, link) repeats an earlier row's, and overwrite the
 file with what is left.
 */
module Store {
  import opened Wrappers
  import opened Records
  import opened Novelty

  /** `drop_duplicates(keep='first')` on the rows after those already kept,
      whose keys are `seen`. */
  function DedupFrom(rows: seq<JobRecord>, seen: set<Key>): seq<JobRecord>
    decreases |rows|
  {
    if rows == [] then []
    else if KeyOf(rows[0]) in seen then DedupFrom(rows[1..], seen)
    else [rows[0]] + DedupFrom(rows[1..], seen + {KeyOf(rows[0])})
  }

  /** `drop_duplicates(subset=['Job title', 'Payment info', 'Link'], keep='first')`. */
  function DropDuplicates(rows: seq<JobRecord>): seq<JobRecord> {
    DedupFrom(rows, {})
  }

  /** Row `i` is the first one with its key. */
  predicate FirstWithKey(rows: seq<JobRecord>, i: int)
    requires 0 <= i < |rows|
  {
    forall j :: 0 <= j < i ==> KeyOf(rows[j]) != KeyOf(rows[i])
  }

  lemma {:induction false} DedupFromSpec(rows: seq<JobRecord>, seen: set<Key>)
    ensures NoDuplicateKeys(DedupFrom(rows, seen))
    ensures IsSubsequence(DedupFrom(rows, seen), rows)
    ensures Keys(DedupFrom(rows, seen)) == Keys(rows) - seen
    decreases |rows|
  {
    if rows != [] {
      var x := rows[0];
      assert rows == [x] + rows[1..];
      assert Keys(rows) == {KeyOf(x)} + Keys(rows[1..]);
      if KeyOf(x) in seen {
        DedupFromSpec(rows[1..], seen);
      } else {
        var rest := DedupFrom(rows[1..], seen + {KeyOf(x)});
        DedupFromSpec(rows[1..], seen + {KeyOf(x)});
        assert ([x] + rest)[1..] == rest;
        assert Keys([x] + rest) == {KeyOf(x)} + Keys(rest);
        forall i, j | 0 <= i < j < |[x] + rest| ensures KeyOf(([x] + rest)[i]) != KeyOf(([x] + rest)[j]) {
          if i == 0 {
            assert rest[j - 1] in rest;
          } else {
            assert ([x] + rest)[i] == rest[i - 1] && ([x] + rest)[j] == rest[j - 1];
          }
        }
      }
    }
  }

  /** After `drop_duplicates`, no two rows share a key, the rows left are
      rows of the input in their order, and every key of the input is still
      there. */
  lemma DropDuplicatesSpec(rows: seq<JobRecord>)
    ensures NoDuplicateKeys(DropDuplicates(rows))
    ensures IsSubsequence(DropDuplicates(rows), rows)
    ensures Keys(DropDuplicates(rows)) == Keys(rows)
  {
    DedupFromSpec(rows, {});
  }

  lemma {:induction false} DedupFromKeepsFirst(rows: seq<JobRecord>, seen: set<Key>, i: int)
    requires 0 <= i < |rows| && FirstWithKey(rows, i) && KeyOf(rows[i]) !in seen
    ensures rows[i] in DedupFrom(rows, seen)
    decreases |rows|
  {
    if i > 0 {
      var s' := if KeyOf(rows[0]) in seen then seen else seen + {KeyOf(rows[0])};
      assert KeyOf(rows[0]) != KeyOf(rows[i]);
      assert rows[1..][i - 1] == rows[i];
      assert FirstWithKey(rows[1..], i - 1) by {
        forall j | 0 <= j < i - 1 ensures KeyOf(rows[1..][j]) != KeyOf(rows[1..][i - 1]) {
          assert rows[1..][j] == rows[j + 1];
        }
      }
      DedupFromKeepsFirst(rows[1..], s', i - 1);
    }
  }

  /** `keep='first'`: the row kept for each key is the first row with that
      key.  Together with `DropDuplicatesSpec` (one row per key) the first
      occurrence of every key is kept and no other row is. */
  lemma DropDuplicatesKeepsFirst(rows: seq<JobRecord>, i: int)
    requires 0 <= i < |rows| && FirstWithKey(rows, i)
    ensures rows[i] in DropDuplicates(rows)
  {
    DedupFromKeepsFirst(rows, {}, i);
  }

  /** The rows at the indices where a key occurs for the first time, among
      the first `n` rows, in index order. */
  function FirstOccurrences(rows: seq<JobRecord>, n: nat): seq<JobRecord>
    requires n <= |rows|
  {
    if n == 0 then []
    else FirstOccurrences(rows, n - 1) + (if FirstWithKey(rows, n - 1) then [rows[n - 1]] else [])
  }

  /** Appending one row to the input of `DedupFrom` appends it to the
      output exactly when its key was neither seen nor in the input. */
  lemma {:induction false} DedupFromSnoc(rows: seq<JobRecord>, x: JobRecord, seen: set<Key>)
    ensures DedupFrom(rows + [x], seen) ==
      DedupFrom(rows, seen) + (if KeyOf(x) in seen + Keys(rows) then [] else [x])
    decreases |rows|
  {
    if rows == [] {
      assert rows + [x] == [x] && [x][1..] == [];
      assert Keys(rows) == {};
      assert seen + Keys(rows) == seen;
    } else {
      var y := rows[0];
      assert (rows + [x])[0] == y && (rows + [x])[1..] == rows[1..] + [x];
      assert rows == [y] + rows[1..];
      assert Keys(rows) == {KeyOf(y)} + Keys(rows[1..]);
      if KeyOf(y) in seen {
        DedupFromSnoc(rows[1..], x, seen);
        assert seen + Keys(rows[1..]) == seen + Keys(rows);
      } else {
        DedupFromSnoc(rows[1..], x, seen + {KeyOf(y)});
        assert seen + {KeyOf(y)} + Keys(rows[1..]) == seen + Keys(rows);
      }
    }
  }

  lemma {:induction false} DropDuplicatesPrefix(rows: seq<JobRecord>, n: nat)
    requires n <= |rows|
    ensures DropDuplicates(rows[..n]) == FirstOccurrences(rows, n)
    decreases n
  {
    if n > 0 {
      var x := rows[n - 1];
      DropDuplicatesPrefix(rows, n - 1);
      assert rows[..n] == rows[..n - 1] + [x];
      DedupFromSnoc(rows[..n - 1], x, {});
      assert {} + Keys(rows[..n - 1]) == Keys(rows[..n - 1]);
      assert KeyOf(x) in Keys(rows[..n - 1]) <==> !FirstWithKey(rows, n - 1) by {
        if KeyOf(x) in Keys(rows[..n - 1]) {
          var r :| r in rows[..n - 1] && KeyOf(r) == KeyOf(x);
          var j :| 0 <= j < n - 1 && rows[..n - 1][j] == r;
          assert KeyOf(rows[j]) == KeyOf(x);
        }
        if !FirstWithKey(rows, n - 1) {
          var j :| 0 <= j < n - 1 && KeyOf(rows[j]) == KeyOf(x);
          assert rows[..n - 1][j] == rows[j];
        }
      }
    } else {
      assert rows[..0] == [];
    }
  }

  /** `drop_duplicates(keep='first')` is exactly the rows that are the
      first with their key, in their original order. */
  lemma {:induction false} DropDuplicatesIsFirstOccurrences(rows: seq<JobRecord>)
    ensures DropDuplicates(rows) == FirstOccurrences(rows, |rows|)
  {
    DropDuplicatesPrefix(rows, |rows|);
    assert rows[..|rows|] == rows;
  }

  lemma {:induction false} DedupFromPrefix(a: seq<JobRecord>, b: seq<JobRecord>, seen: set<Key>)
    requires NoDuplicateKeys(a) && Keys(a) !! seen
    ensures DedupFrom(a + b, seen) == a + DedupFrom(b, seen + Keys(a))
    decreases |a|
  {
    if a == [] {
      assert a + b == b;
      assert Keys(a) == {};
      assert seen + Keys(a) == seen;
    } else {
      var x := a[0];
      assert (a + b)[0] == x && (a + b)[1..] == a[1..] + b;
      assert a == [x] + a[1..];
      assert Keys(a) == {KeyOf(x)} + Keys(a[1..]);
      assert NoDuplicateKeys(a[1..]) by {
        forall i, j | 0 <= i < j < |a[1..]| ensures KeyOf(a[1..][i]) != KeyOf(a[1..][j]) {
          assert a[1..][i] == a[i + 1] && a[1..][j] == a[j + 1];
        }
      }
      DedupFromPrefix(a[1..], b, seen + {KeyOf(x)});
      assert seen + {KeyOf(x)} + Keys(a[1..]) == seen + Keys(a);
      assert [x] + (a[1..] + DedupFrom(b, seen + Keys(a))) == a + DedupFrom(b, seen + Keys(a));
    }
  }

  /** Rows that already have distinct keys all survive, unchanged and in
      front, when more rows are appended and duplicates dropped: stored rows
      win over appended rows with the same key. */
  lemma StoredRowsWin(stored: seq<JobRecord>, added: seq<JobRecord>)
    requires NoDuplicateKeys(stored)
    ensures DropDuplicates(stored + added) == stored + DedupFrom(added, Keys(stored))
  {
    DedupFromPrefix(stored, added, {});
    assert {} + Keys(stored) == Keys(stored);
  }

  /** Dropping duplicates from rows that have none changes nothing, so a
      second `drop_duplicates` is a no-op. */
  lemma DropDuplicatesIdempotent(rows: seq<JobRecord>)
    requires NoDuplicateKeys(rows)
    ensures DropDuplicates(rows) == rows
  {
    StoredRowsWin(rows, []);
    assert rows + [] == rows;
  }

  /** Of two rows with one key, only the first is kept. */
  lemma SameKeyPairDeduplicated(x: JobRecord, y: JobRecord)
    requires KeyOf(x) == KeyOf(y)
    ensures DropDuplicates([x, y]) == [x]
  {
    var seen := {KeyOf(x)};
    assert {} + {KeyOf(x)} == seen;
    assert DedupFrom([y], seen) == DedupFrom([y][1..], seen);
    assert [y][1..] == [];
    assert DedupFrom([x, y], {}) == [x] + DedupFrom([x, y][1..], seen);
    assert [x, y][1..] == [y];
  }

  /** The file's rows after `append_to_csv(newJobs)`. */
  function Appended(file: StoreFile, newJobs: seq<JobRecord>): seq<JobRecord> {
    DropDuplicates(Existing(file) + newJobs)
  }

  /** After `append_to_csv` no two rows share a key, no stored or appended
      key is lost, the rows keep their relative order, and when the file had
      distinct keys before, its rows are still its first rows. */
  lemma AppendedSpec(file: StoreFile, newJobs: seq<JobRecord>)
    ensures NoDuplicateKeys(Appended(file, newJobs))
    ensures Keys(Appended(file, newJobs)) == Keys(Existing(file)) + Keys(newJobs)
    ensures IsSubsequence(Appended(file, newJobs), Existing(file) + newJobs)
    ensures NoDuplicateKeys(Existing(file)) ==>
      |Existing(file)| <= |Appended(file, newJobs)| &&
      Appended(file, newJobs)[..|Existing(file)|] == Existing(file)
  {
    var all := Existing(file) + newJobs;
    DropDuplicatesSpec(all);
    assert Keys(all) == Keys(Existing(file)) + Keys(newJobs);
    if NoDuplicateKeys(Existing(file)) {
      StoredRowsWin(Existing(file), newJobs);
    }
  }

  /** `job_listings.csv`: its rows, or `None` while the file does not exist. */
  class JobListingsCsv {
    var contents: StoreFile

    constructor (initial: StoreFile)
      ensures contents == initial
    {
      contents := initial;
    }

    /** main.py:112-126.  `to_csv(mode='a')` creates the file when it is
        absent and adds the rows at its end; the file is then read back,
        deduplicated in place and written over. */
    method AppendToCsv(newJobs: seq<JobRecord>)
      modifies this
      ensures contents == Some(Appended(old(contents), newJobs))
      ensures NoDuplicateKeys(contents.value)
      ensures Keys(contents.value) == Keys(Existing(old(contents))) + Keys(newJobs)
      ensures NoDuplicateKeys(Existing(old(contents))) ==>
        |Existing(old(contents))| <= |contents.value| &&
        contents.value[..|Existing(old(contents))|] == Existing(old(contents))
    {
      AppendedSpec(contents, newJobs);
      contents := Some(Existing(contents) + newJobs);
      var allJobs := contents.value;
      allJobs := DropDuplicates(allJobs);
      contents := Some(allJobs);
    }
  }
}
