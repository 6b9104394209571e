/**
 `UpWorkJobScraper.filter_new_jobs` (main.py:79-110): normalise the scraped
 rows and the stored rows, then keep the scraped rows whose key
 (title, payment info, link) does not occur among the stored keys, as
 the left-only rows of a left merge.
 */
module Novelty {
  import opened Wrappers
  import opened Records

  /** Why a run stops with an exception instead of returning rows. */
  datatype ScrapeError =
    /** `KeyError`: a column the code indexes is missing from the frame. */
    | KeyError(column: string)

  /** The rows of `job_listings.csv`, or `None` when the file does not exist. */
  type StoreFile = Option<seq<JobRecord>>

  /** `pd.read_csv`, with `FileNotFoundError` read as an empty frame. */
  function Existing(file: StoreFile): seq<JobRecord> {
    match file
    case None => []
    case Some(rows) => rows
  }

  /** The normalised keys of the stored rows (main.py:98-100). */
  function StoreKeys(file: StoreFile): set<Key> {
    set r | r in Existing(file) :: NormKey(r)
  }

  /** Each scraped row normalised in place (main.py:94-96), in order. */
  function NormalizeAll(rows: seq<JobRecord>): (n: seq<JobRecord>)
    ensures |n| == |rows|
  {
    seq(|rows|, i requires 0 <= i < |rows| => Normalize(rows[i]))
  }

  /** The left-only rows of a left merge of `left` with rows whose keys
      are `existing`. */
  function AntiJoin(left: seq<JobRecord>, existing: set<Key>): seq<JobRecord>
    decreases |left|
  {
    if left == [] then []
    else
      var rest := AntiJoin(left[1..], existing);
      if KeyOf(left[0]) in existing then rest else [left[0]] + rest
  }

  /** The anti-join keeps exactly the rows of `left` whose key is not in
      `existing`, in their order. */
  lemma {:induction false} AntiJoinSpec(left: seq<JobRecord>, existing: set<Key>)
    ensures IsSubsequence(AntiJoin(left, existing), left)
    ensures forall x :: x in AntiJoin(left, existing) <==> x in left && KeyOf(x) !in existing
    decreases |left|
  {
    if left != [] {
      AntiJoinSpec(left[1..], existing);
      var rest := AntiJoin(left[1..], existing);
      assert left == [left[0]] + left[1..];
      if KeyOf(left[0]) !in existing {
        assert ([left[0]] + rest)[1..] == rest;
      }
    }
  }

  /** The rows `filter_new_jobs` returns.  An empty scrape gives a frame
      without a `Job title` column, and indexing it raises `KeyError`
      (main.py:91-94). */
  function FilterNew(scraped: seq<JobRecord>, file: StoreFile): (r: Result<seq<JobRecord>, ScrapeError>)
    ensures r.Failure? <==> scraped == []
  {
    if scraped == [] then Failure(KeyError("Job title"))
    else Success(AntiJoin(NormalizeAll(scraped), StoreKeys(file)))
  }

  /** A scraped row, normalised, is in the result exactly when its key is
      not among the stored keys; the result keeps the scrape's order. */
  lemma FilterNewSpec(scraped: seq<JobRecord>, file: StoreFile)
    requires scraped != []
    ensures FilterNew(scraped, file).Success?
    ensures forall i :: 0 <= i < |scraped| ==>
      (Normalize(scraped[i]) in FilterNew(scraped, file).value <==> NormKey(scraped[i]) !in StoreKeys(file))
    ensures forall x :: x in FilterNew(scraped, file).value ==> x in NormalizeAll(scraped)
    ensures IsSubsequence(FilterNew(scraped, file).value, NormalizeAll(scraped))
  {
    var n := NormalizeAll(scraped);
    AntiJoinSpec(n, StoreKeys(file));
    forall i | 0 <= i < |scraped| ensures Normalize(scraped[i]) in n {
      assert n[i] == Normalize(scraped[i]);
    }
  }

  lemma {:induction false} AntiJoinNothing(left: seq<JobRecord>)
    ensures AntiJoin(left, {}) == left
    decreases |left|
  {
    if left != [] {
      AntiJoinNothing(left[1..]);
    }
  }

  /** When every key of `left` is in `existing`, nothing is left. */
  lemma {:induction false} AntiJoinAllKnown(left: seq<JobRecord>, existing: set<Key>)
    requires forall i :: 0 <= i < |left| ==> KeyOf(left[i]) in existing
    ensures AntiJoin(left, existing) == []
    decreases |left|
  {
    if left != [] {
      AntiJoinAllKnown(left[1..], existing);
    }
  }

  /** Without a store file every scraped row is new (main.py:86-88); an
      existing file with no rows behaves the same. */
  lemma MissingStoreAllNew(scraped: seq<JobRecord>, file: StoreFile)
    requires scraped != []
    requires Existing(file) == []
    ensures FilterNew(scraped, file) == Success(NormalizeAll(scraped))
  {
    assert StoreKeys(file) == {};
    AntiJoinNothing(NormalizeAll(scraped));
  }

  lemma {:induction false} AntiJoinCount(left: seq<JobRecord>, existing: set<Key>, x: JobRecord)
    ensures multiset(AntiJoin(left, existing))[x] ==
      if KeyOf(x) in existing then 0 else multiset(left)[x]
    decreases |left|
  {
    if left != [] {
      AntiJoinCount(left[1..], existing, x);
      assert left == [left[0]] + left[1..];
    }
  }

  /** Each scraped row is compared with the store on its own: a new row
      occurs in the result as often as it occurs, normalised, in the scrape,
      so two scraped rows with one key both pass when the store lacks it. */
  lemma FilterNewCount(scraped: seq<JobRecord>, file: StoreFile, x: JobRecord)
    requires scraped != []
    ensures FilterNew(scraped, file).Success?
    ensures multiset(FilterNew(scraped, file).value)[x] ==
      if KeyOf(x) in StoreKeys(file) then 0 else multiset(NormalizeAll(scraped))[x]
  {
    AntiJoinCount(NormalizeAll(scraped), StoreKeys(file), x);
  }

  /** Two sequences of rows that differ at most in their `Posted` values. */
  predicate SameUpToPosted(a: seq<JobRecord>, b: seq<JobRecord>) {
    |a| == |b| && forall i :: 0 <= i < |a| ==> KeyOf(a[i]) == KeyOf(b[i])
  }

  lemma {:induction false} AntiJoinUpToPosted(a: seq<JobRecord>, b: seq<JobRecord>, existing: set<Key>)
    requires SameUpToPosted(a, b)
    ensures SameUpToPosted(AntiJoin(a, existing), AntiJoin(b, existing))
    decreases |a|
  {
    if a != [] {
      AntiJoinUpToPosted(a[1..], b[1..], existing);
    }
  }

  lemma StoreKeysUpToPosted(f: StoreFile, g: StoreFile)
    requires SameUpToPosted(Existing(f), Existing(g))
    ensures StoreKeys(f) == StoreKeys(g)
  {
    var a, b := Existing(f), Existing(g);
    forall k | k in StoreKeys(f) ensures k in StoreKeys(g) {
      var r :| r in a && NormKey(r) == k;
      var i :| 0 <= i < |a| && a[i] == r;
      assert NormKey(b[i]) == k;
    }
    forall k | k in StoreKeys(g) ensures k in StoreKeys(f) {
      var r :| r in b && NormKey(r) == k;
      var i :| 0 <= i < |b| && b[i] == r;
      assert NormKey(a[i]) == k;
    }
  }

  /** `Posted` never decides novelty: changing the `Posted` values of the
      scraped rows or of the stored rows changes the result at most in its
      `Posted` values (the column is not a merge key, main.py:107). */
  lemma PostedIrrelevant(s1: seq<JobRecord>, s2: seq<JobRecord>, f1: StoreFile, f2: StoreFile)
    requires SameUpToPosted(s1, s2)
    requires SameUpToPosted(Existing(f1), Existing(f2))
    ensures FilterNew(s1, f1).Success? == FilterNew(s2, f2).Success?
    ensures FilterNew(s1, f1).Success? ==>
      SameUpToPosted(FilterNew(s1, f1).value, FilterNew(s2, f2).value)
  {
    StoreKeysUpToPosted(f1, f2);
    if s1 != [] {
      assert SameUpToPosted(NormalizeAll(s1), NormalizeAll(s2)) by {
        forall i | 0 <= i < |s1| ensures KeyOf(NormalizeAll(s1)[i]) == KeyOf(NormalizeAll(s2)[i]) {
          NormKeyDependsOnKey(s1[i], s2[i]);
        }
      }
      AntiJoinUpToPosted(NormalizeAll(s1), NormalizeAll(s2), StoreKeys(f1));
    }
  }

  /** The normalised key is a function of the raw key. */
  lemma NormKeyDependsOnKey(a: JobRecord, b: JobRecord)
    requires KeyOf(a) == KeyOf(b)
    ensures NormKey(a) == NormKey(b)
  {
  }
}
