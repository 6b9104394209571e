/**
 One run of `UpWorkJobScraper.scraping` (main.py:37-77): build the rows,
 filter them against `job_listings.csv`, and only when something is new
 send the e-mail and append to the file.
 */
module Pipeline {
  import opened Wrappers
  import opened Records
  import opened Extraction
  import opened Novelty
  import opened Store

  /** The file after one run that scraped `scraped` (main.py:74-77): left
      alone when the filter raises or finds nothing new. */
  function NextStore(scraped: seq<JobRecord>, file: StoreFile): StoreFile {
    match FilterNew(scraped, file)
    case Failure(_) => file
    case Success(newJobs) => if newJobs == [] then file else Some(Appended(file, newJobs))
  }

  /** What the runs keep true of the file: it holds no two rows with one
      key, and every row is normalised (the rows come from the filter). */
  predicate StoreValid(file: StoreFile) {
    NoDuplicateKeys(Existing(file)) && forall r :: r in Existing(file) ==> IsNormal(r)
  }

  /** On a file the runs wrote, comparing raw columns (as `drop_duplicates`
      does) and comparing normalised columns (as the filter does) agree. */
  lemma ValidStoreKeys(file: StoreFile)
    requires StoreValid(file)
    ensures StoreKeys(file) == Keys(Existing(file))
  {
    forall r | r in Existing(file) ensures NormKey(r) == KeyOf(r) {
      NormKeyOfNormal(r);
    }
  }

  /** A row whose raw key is in the file has its normalised key among the
      file's normalised keys. */
  lemma StoreKeysOfKey(rows: seq<JobRecord>, r: JobRecord)
    requires KeyOf(r) in Keys(rows)
    ensures NormKey(r) in StoreKeys(Some(rows))
  {
    var r' :| r' in rows && KeyOf(r') == KeyOf(r);
    NormKeyDependsOnKey(r, r');
  }

  /** Each run keeps the file valid. */
  lemma NextStoreValid(scraped: seq<JobRecord>, file: StoreFile)
    requires StoreValid(file)
    ensures StoreValid(NextStore(scraped, file))
  {
    if scraped != [] {
      var newJobs := FilterNew(scraped, file).value;
      if newJobs != [] {
        FilterNewSpec(scraped, file);
        AppendedSpec(file, newJobs);
        SubsequenceMembers(Appended(file, newJobs), Existing(file) + newJobs);
        forall r | r in newJobs ensures IsNormal(r) {
          var i :| 0 <= i < |scraped| && NormalizeAll(scraped)[i] == r;
        }
      }
    }
  }

  /** After a run, every scraped row's listing is in the file. */
  lemma ScrapedAllRecorded(scraped: seq<JobRecord>, file: StoreFile)
    requires scraped != []
    ensures forall i :: 0 <= i < |scraped| ==> NormKey(scraped[i]) in StoreKeys(NextStore(scraped, file))
  {
    FilterNewSpec(scraped, file);
    var newJobs := FilterNew(scraped, file).value;
    if newJobs != [] {
      var rows := Appended(file, newJobs);
      AppendedSpec(file, newJobs);
      forall i | 0 <= i < |scraped| ensures NormKey(scraped[i]) in StoreKeys(Some(rows)) {
        var s := scraped[i];
        if NormKey(s) in StoreKeys(file) {
          var r :| r in Existing(file) && NormKey(r) == NormKey(s);
          StoreKeysOfKey(rows, r);
        } else {
          NormKeyOfNormalized(s);
          StoreKeysOfKey(rows, Normalize(s));
        }
      }
    }
  }

  /** A run over listings the file already has changes nothing: in
      particular a listing whose `Posted` text drifted is not new. */
  lemma {:induction false} KnownListingsChangeNothing(scraped: seq<JobRecord>, file: StoreFile)
    requires forall i :: 0 <= i < |scraped| ==> NormKey(scraped[i]) in StoreKeys(file)
    ensures scraped != [] ==> FilterNew(scraped, file) == Success([])
    ensures NextStore(scraped, file) == file
  {
    if scraped != [] {
      AntiJoinAllKnown(NormalizeAll(scraped), StoreKeys(file));
    }
  }

  /** Running again on the same scrape finds nothing new and leaves the
      file as the first run wrote it. */
  lemma RerunIdempotent(scraped: seq<JobRecord>, file: StoreFile)
    ensures scraped != [] ==> FilterNew(scraped, NextStore(scraped, file)) == Success([])
    ensures NextStore(scraped, NextStore(scraped, file)) == NextStore(scraped, file)
  {
    if scraped != [] {
      ScrapedAllRecorded(scraped, file);
      KnownListingsChangeNothing(scraped, NextStore(scraped, file));
    }
  }

  /** On a valid file, a run keeps every stored row, unchanged, in front. */
  lemma StoredRowsKept(scraped: seq<JobRecord>, file: StoreFile)
    requires StoreValid(file)
    ensures |Existing(file)| <= |Existing(NextStore(scraped, file))|
    ensures Existing(NextStore(scraped, file))[..|Existing(file)|] == Existing(file)
  {
    if scraped != [] && FilterNew(scraped, file).value != [] {
      AppendedSpec(file, FilterNew(scraped, file).value);
    }
  }

  /** Two scraped rows for one listing, with no file yet: the filter passes
      both, and the file written keeps only the first. */
  lemma DuplicateScrapeStoredOnce(a: JobRecord, b: JobRecord)
    requires NormKey(a) == NormKey(b)
    ensures FilterNew([a, b], None) == Success([Normalize(a), Normalize(b)])
    ensures NextStore([a, b], None) == Some([Normalize(a)])
  {
    MissingStoreAllNew([a, b], None);
    assert NormalizeAll([a, b]) == [Normalize(a), Normalize(b)];
    var na, nb := Normalize(a), Normalize(b);
    assert Existing(None) + [na, nb] == [na, nb];
    SameKeyPairDeduplicated(na, nb);
  }

  /** How a run of `scraping` ends. */
  datatype Outcome =
    | TimedOut                 // the job titles did not load in time (main.py:47-50)
    | Crashed(error: ScrapeError)
    | NoNewJobs
    | Notified(count: nat)     // e-mail sent and file appended, `count` new rows

  /** The scraper object.  The browser is not modelled: a run is given the
      page's job articles, or `None` when the wait timed out. */
  class UpWorkJobScraper {
    const csv: JobListingsCsv
    var data: seq<JobRecord>
    var jobTitles: Option<string>
    var postedAt: Option<string>
    var paymentInfo: Option<string>
    var link: Option<Anchor>
    /** The batches handed to `send_email`, oldest first. */
    var sentEmails: seq<seq<JobRecord>>

    constructor (csv: JobListingsCsv)
      ensures this.csv == csv && data == [] && sentEmails == []
    {
      this.csv := csv;
      data := [];
      jobTitles, postedAt, paymentInfo, link := None, None, None, None;
      sentEmails := [];
    }

    /** `send_email` (main.py:130-175): the message itself and the SMTP
        transport are not modelled; a failed send is only printed, so the
        batch counts as handed over either way. */
    method SendEmail(newJobs: seq<JobRecord>)
      modifies this`sentEmails
      ensures sentEmails == old(sentEmails) + [newJobs]
    {
      sentEmails := sentEmails + [newJobs];
    }

    /** `scraping` (main.py:37-77). */
    method Scraping(page: Option<seq<Article>>) returns (outcome: Outcome)
      modifies this, csv
      ensures page.None? ==> outcome == TimedOut && data == []
      ensures page.Some? ==> data == BuildAll(page.value)
      ensures csv.contents == NextStore(data, old(csv.contents))
      ensures page.Some? ==> match FilterNew(data, old(csv.contents))
        case Failure(e) => outcome == Crashed(e) && sentEmails == old(sentEmails)
        case Success(newJobs) =>
          if newJobs == [] then outcome == NoNewJobs && sentEmails == old(sentEmails)
          else outcome == Notified(|newJobs|) && sentEmails == old(sentEmails) + [newJobs]
      ensures page.None? ==> sentEmails == old(sentEmails)
    {
      data := [];
      if page.None? {
        return TimedOut;
      }
      var articles := page.value;
      var i := 0;
      while i < |articles|
        invariant 0 <= i <= |articles|
        invariant |data| == i
        invariant forall k :: 0 <= k < i ==> data[k] == BuildRecord(articles[k])
        invariant csv.contents == old(csv.contents) && sentEmails == old(sentEmails)
      {
        jobTitles := articles[i].title;
        postedAt := articles[i].posted;
        paymentInfo := articles[i].paymentInfo;
        link := articles[i].link;
        data := data + [BuildRecord(Article(jobTitles, postedAt, paymentInfo, link))];
        i := i + 1;
      }
      assert data == BuildAll(articles);

      var filtered := FilterNew(data, csv.contents);
      if filtered.Failure? {
        return Crashed(filtered.error);
      }
      var newJobs := filtered.value;
      if newJobs != [] {
        SendEmail(newJobs);
        csv.AppendToCsv(newJobs);
        outcome := Notified(|newJobs|);
      } else {
        outcome := NoNewJobs;
      }
    }
  }
}
