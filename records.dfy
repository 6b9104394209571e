/**
 One scraped listing, the key that decides whether two listings are the
 same, and the normalisation applied to both the scraped and the stored
 rows before they are compared (main.py, `filter_new_jobs`).
 */
module Records {
  import opened Text

  /** A row of `job_listings.csv`: the columns `Job title`, `Posted`,
      `Payment info` and `Link`. */
  datatype JobRecord = JobRecord(title: string, posted: string, paymentInfo: string, link: string)

  /** The columns rows are compared on; `Posted` is not one of them. */
  datatype Key = Key(title: string, paymentInfo: string, link: string)

  function KeyOf(r: JobRecord): Key {
    Key(r.title, r.paymentInfo, r.link)
  }

  /** What normalisation produces: title and payment info stripped and
      without capitals, link stripped (its case is kept). */
  predicate IsNormal(r: JobRecord) {
    && IsStripped(r.title) && IsLower(r.title)
    && IsStripped(r.paymentInfo) && IsLower(r.paymentInfo)
    && IsStripped(r.link)
  }

  /** `s.strip().lower()` is stripped and has no capitals, and leaves a
      string that already is both unchanged. */
  lemma FoldedField(s: string)
    ensures IsStripped(Lower(Strip(s))) && IsLower(Lower(Strip(s)))
    ensures IsStripped(s) && IsLower(s) ==> Lower(Strip(s)) == s
  {
    StripSpec(s);
    LowerSpec(Strip(s));
    LowerKeepsSpace(Strip(s));
    StripOfStripped(s);
    if IsStripped(s) && IsLower(s) {
      LowerOfLower(s);
    }
  }

  /** `.str.strip().str.lower()` on title and payment info, `.str.strip()`
      on link; `Posted` is left as it is.  The result is normal, and a record
      that is already normal comes back unchanged; in particular a link is
      never case-folded. */
  function Normalize(r: JobRecord): (n: JobRecord)
    ensures IsNormal(n) && n.posted == r.posted
    ensures IsNormal(r) ==> n == r
    ensures IsStripped(r.link) ==> n.link == r.link
  {
    FoldedField(r.title);
    FoldedField(r.paymentInfo);
    StripSpec(r.link);
    StripOfStripped(r.link);
    JobRecord(Lower(Strip(r.title)), r.posted, Lower(Strip(r.paymentInfo)), Strip(r.link))
  }

  /** The key a record is compared on once normalised. */
  function NormKey(r: JobRecord): Key {
    KeyOf(Normalize(r))
  }

  /** Normalising twice is normalising once, so a normalised record that is
      stored and read back has the key it was stored under. */
  lemma NormKeyOfNormalized(r: JobRecord)
    ensures Normalize(Normalize(r)) == Normalize(r)
    ensures NormKey(Normalize(r)) == NormKey(r)
  {
  }

  /** On a normal record, the raw key is the normalised key. */
  lemma NormKeyOfNormal(r: JobRecord)
    requires IsNormal(r)
    ensures NormKey(r) == KeyOf(r)
  {
  }

  /** Two records whose title and payment info differ only in the case of
      their letters, whose links are equal and whose `Posted` may differ,
      are the same listing. */
  lemma {:induction false} CaseInsensitive(r1: JobRecord, r2: JobRecord)
    requires Lower(r1.title) == Lower(r2.title)
    requires Lower(r1.paymentInfo) == Lower(r2.paymentInfo)
    requires r1.link == r2.link
    ensures NormKey(r1) == NormKey(r2)
  {
    StripLowerCommute(r1.title);
    StripLowerCommute(r2.title);
    StripLowerCommute(r1.paymentInfo);
    StripLowerCommute(r2.paymentInfo);
  }

  /** Whitespace around any of the three key fields, each padded on its
      own, and the `Posted` text, do not change the listing a record stands
      for. */
  lemma {:induction false} PaddingInsensitive(r: JobRecord, posted: string,
      p1: string, q1: string, p2: string, q2: string, p3: string, q3: string)
    requires AllSpace(p1) && AllSpace(q1)
    requires AllSpace(p2) && AllSpace(q2)
    requires AllSpace(p3) && AllSpace(q3)
    ensures NormKey(JobRecord(p1 + r.title + q1, posted, p2 + r.paymentInfo + q2, p3 + r.link + q3)) == NormKey(r)
  {
    PaddingIgnored(p1, r.title, q1);
    PaddingIgnored(p2, r.paymentInfo, q2);
    PaddingIgnored(p3, r.link, q3);
  }

  /** The key set of a sequence of rows, compared on raw column values. */
  function Keys(rows: seq<JobRecord>): set<Key> {
    set r | r in rows :: KeyOf(r)
  }

  /** No two rows share a key. */
  predicate NoDuplicateKeys(rows: seq<JobRecord>) {
    forall i, j :: 0 <= i < j < |rows| ==> KeyOf(rows[i]) != KeyOf(rows[j])
  }

  /** `sub` is `s` with some elements dropped and the rest in their order. */
  predicate IsSubsequence<T(==)>(sub: seq<T>, s: seq<T>)
    decreases |s|
  {
    if sub == [] then true
    else if s == [] then false
    else (sub[0] == s[0] && IsSubsequence(sub[1..], s[1..])) || IsSubsequence(sub, s[1..])
  }

  /** Every element of a subsequence is an element of the sequence. */
  lemma {:induction false} SubsequenceMembers<T>(sub: seq<T>, s: seq<T>)
    requires IsSubsequence(sub, s)
    ensures forall x :: x in sub ==> x in s
    decreases |s|
  {
    if sub != [] {
      if sub[0] == s[0] && IsSubsequence(sub[1..], s[1..]) {
        SubsequenceMembers(sub[1..], s[1..]);
        assert sub == [sub[0]] + sub[1..];
      } else {
        SubsequenceMembers(sub, s[1..]);
      }
    }
  }
}
