/**
 * The decision logic of `download_documents_and_fulltext` and the file-name
 * derivation of `download_file`, with the network, the XML parser and the
 * file system taken out.
 *
 * `download_documents_and_fulltext` always returns Python's `None`; what it
 * does is observable only through its effects. The model therefore returns a
 * `Run`: the SRU (Search/Retrieve via URL) request it issues, if any, whether
 * it creates the download directory, the downloads it starts, in order, and
 * whether one of them raised an error that ended it. The search service's
 * answer is an input (`SearchReply`), already parsed into one entry per
 * record: `None` for a record without a `recordData` element, otherwise the
 * texts of its `dc:identifier` elements. So is the download, if any, whose
 * error escapes `download_file` (`failingCall`).
 */
module Acquisition {
  import opened Wrappers
  import PosixPath
  import CqlQuery

  // ---------------------------------------------------------------------
  // The empty-query guard: `not cql_query.strip()`
  // ---------------------------------------------------------------------

  /** Python's `str.isspace` for one character: the characters `str.strip()`
    * removes when given no argument. */
  predicate IsSpace(c: char) {
    || ('\t' <= c <= '\r')
    || ('\U{1C}' <= c <= ' ')
    || c == '\U{85}' || c == '\U{A0}' || c == '\U{1680}'
    || ('\U{2000}' <= c <= '\U{200A}')
    || c == '\U{2028}' || c == '\U{2029}' || c == '\U{202F}' || c == '\U{205F}'
    || c == '\U{3000}'
  }

  /** `s.lstrip()`: the suffix of `s` left after dropping its leading whitespace. */
  function StripLeading(s: string): (r: string)
    ensures |r| <= |s| && r == s[|s| - |r|..]
    ensures forall i :: 0 <= i < |s| - |r| ==> IsSpace(s[i])
    ensures r != "" ==> !IsSpace(r[0])
  {
    if s != "" && IsSpace(s[0]) then StripLeading(s[1..]) else s
  }

  /** `s.rstrip()`: the prefix of `s` left after dropping its trailing whitespace. */
  function StripTrailing(s: string): (r: string)
    ensures |r| <= |s| && r == s[..|r|]
    ensures forall i :: |r| <= i < |s| ==> IsSpace(s[i])
    ensures r != "" ==> !IsSpace(r[|r| - 1])
  {
    if s != "" && IsSpace(s[|s| - 1]) then StripTrailing(s[..|s| - 1]) else s
  }

  /** `s.strip()`. */
  function Strip(s: string): string {
    StripTrailing(StripLeading(s))
  }

  /** The guard `not cql_query.strip()`. */
  predicate IsBlank(query: string) {
    Strip(query) == ""
  }

  /** A query is refused exactly when every character of it is whitespace
    * (the empty query included). */
  lemma BlankIffAllSpace(query: string)
    ensures IsBlank(query) <==> forall i :: 0 <= i < |query| ==> IsSpace(query[i])
  {
  }

  /** A query made by `build_cql_query` is refused exactly when none of its
    * arguments had a truthy value: a non-empty query starts with `dc.`. */
  lemma BuiltQueryBlankIffNoValue(pairs: seq<CqlQuery.Pair>)
    ensures IsBlank(CqlQuery.BuildCqlQuery(pairs)) <==>
      forall i :: 0 <= i < |pairs| ==> !CqlQuery.Truthy(pairs[i].1)
  {
    var q := CqlQuery.BuildCqlQuery(pairs);
    CqlQuery.EmptyQueryIffNoValue(pairs);
    BlankIffAllSpace(q);
    if q != "" {
      CqlQuery.NoOuterSeparator(pairs);
      assert q[0] == q[..3][0] == 'd';
    }
  }

  // ---------------------------------------------------------------------
  // The SRU searchRetrieve request
  // ---------------------------------------------------------------------

  const SruEndpoint: string := "https://gallica.bnf.fr/SRU"

  /** The default of `max_records`. */
  const DefaultMaxRecords: int := 100

  /** A value of the `params` dictionary: a string or an integer. */
  datatype ParamValue = Text(text: string) | Number(number: int)

  /** A dictionary in insertion order. */
  type Params = seq<(string, ParamValue)>

  /** Dictionary lookup: the value of the first entry with that key. */
  function Lookup(ps: Params, key: string): Option<ParamValue> {
    if ps == [] then None
    else if ps[0].0 == key then Some(ps[0].1)
    else Lookup(ps[1..], key)
  }

  /** The entry at `i` is the first with its key, so lookup finds its value. */
  lemma {:induction false} LookupAt(ps: Params, i: nat)
    requires i < |ps|
    requires forall k :: 0 <= k < i ==> ps[k].0 != ps[i].0
    ensures Lookup(ps, ps[i].0) == Some(ps[i].1)
  {
    if i > 0 {
      LookupAt(ps[1..], i - 1);
    }
  }

  /** The `params` dictionary of the search: SRU version 1.2, operation
    * searchRetrieve, the query exactly as given, the first record, and at
    * most `maxRecords` records. Its five keys are distinct. */
  function SearchParams(query: string, maxRecords: int): (ps: Params)
    ensures |ps| == 5
    ensures forall i, j :: 0 <= i < j < |ps| ==> ps[i].0 != ps[j].0
    ensures Lookup(ps, "version") == Some(Text("1.2"))
    ensures Lookup(ps, "operation") == Some(Text("searchRetrieve"))
    ensures Lookup(ps, "query") == Some(Text(query))
    ensures Lookup(ps, "startRecord") == Some(Number(1))
    ensures Lookup(ps, "maximumRecords") == Some(Number(maxRecords))
  {
    var ps :=
      [ ("version", Text("1.2")),
        ("operation", Text("searchRetrieve")),
        ("query", Text(query)),
        ("startRecord", Number(1)),
        ("maximumRecords", Number(maxRecords)) ];
    LookupAt(ps, 0); LookupAt(ps, 1); LookupAt(ps, 2); LookupAt(ps, 3); LookupAt(ps, 4);
    ps
  }

  datatype SearchRequest = SearchRequest(url: string, params: Params)

  // ---------------------------------------------------------------------
  // The local file of a download (`download_file`)
  // ---------------------------------------------------------------------

  /** The directory every document is saved in. */
  const DownloadDir: string := "downloads"

  /** `os.path.join(download_dir, os.path.basename(url))`. */
  function FilePath(dir: string, url: string): string {
    PosixPath.Join(dir, PosixPath.Basename(url))
  }

  /** A document lands directly in the download directory, under the part of
    * its URL after the last `/`; that file name is what the path's own base
    * name reads back. */
  lemma FilePathInDownloadDir(url: string)
    ensures FilePath(DownloadDir, url) == DownloadDir + "/" + PosixPath.Basename(url)
    ensures PosixPath.Basename(FilePath(DownloadDir, url)) == PosixPath.Basename(url)
  {
    PosixPath.JoinName(DownloadDir, PosixPath.Basename(url));
    PosixPath.BasenameOfJoin(DownloadDir, PosixPath.Basename(url));
  }

  /** A URL ending in `/` has an empty base name, so its path is the download
    * directory itself followed by `/`. */
  lemma TrailingSlashNamesDirectory(url: string)
    requires url != "" && url[|url| - 1] == '/'
    ensures PosixPath.Basename(url) == ""
    ensures FilePath(DownloadDir, url) == "downloads/"
  {
  }

  // ---------------------------------------------------------------------
  // Records and the downloads they queue
  // ---------------------------------------------------------------------

  /** One `srw:record`: `None` when it has no `srw:recordData`, otherwise the
    * texts of the `dc:identifier` elements of its metadata, in document order. */
  type Record = Option<seq<string>>

  /** What the search gave back: an HTTP failure (transport error, timeout or a
    * 4xx/5xx status), a body that is not well-formed XML, or the records. */
  datatype SearchReply = HttpFailure | Malformed | Parsed(records: seq<Record>)

  /** One call `download_file(url, download_dir)`; the file it writes is
    * `FilePath(dir, url)`. */
  datatype Download = Download(url: string, dir: string)

  /** The effects of one call of `download_documents_and_fulltext`: the
    * search it sends, whether it creates the download directory, the
    * `download_file` calls it makes, and whether one of them raised an error
    * that ended it. */
  datatype Run = Run(search: Option<SearchRequest>, createdDir: bool, downloads: seq<Download>, raised: bool)

  function IdentifiersOf(record: Record): seq<string> {
    match record
    case None => []
    case Some(identifiers) => identifiers
  }

  /** The URLs to download: the identifiers of every record that has
    * metadata, record after record. */
  function QueuedUrls(records: seq<Record>): seq<string> {
    if records == [] then [] else IdentifiersOf(records[0]) + QueuedUrls(records[1..])
  }

  /** The `download_file` call for one URL. */
  function DownloadOf(url: string): Download {
    Download(url, DownloadDir)
  }

  /** The `download_file` calls for `urls`, one per URL, in order. */
  function DownloadsOf(urls: seq<string>): (downloads: seq<Download>)
    ensures |downloads| == |urls|
  {
    if urls == [] then [] else DownloadsOf(urls[..|urls| - 1]) + [DownloadOf(urls[|urls| - 1])]
  }

  lemma DownloadsOfSnoc(urls: seq<string>, url: string)
    ensures DownloadsOf(urls + [url]) == DownloadsOf(urls) + [DownloadOf(url)]
  {
    assert (urls + [url])[..|urls|] == urls;
  }

  // Small facts about slices, stated generically so that the loop proofs
  // below need not compare sequences of strings element by element.

  /** `s` is its prefix through `i` followed by the rest. */
  lemma SplitAtIndex<T>(s: seq<T>, i: nat)
    requires i < |s|
    ensures s == s[..i + 1] + s[i + 1..] && s[..i + 1] == s[..i] + [s[i]]
  {
  }

  /** Taking all of `s` gives `s`. */
  lemma TakeAll<T>(s: seq<T>)
    ensures s[..|s|] == s
  {
  }

  /** Appending an empty prefix changes nothing. */
  lemma AppendEmptyTake<T>(done: seq<T>, s: seq<T>)
    ensures done + s[..0] == done && done + [] == done
  {
  }

  /** Taking one more element of `s` appends that element. */
  lemma TakeSnoc<T>(done: seq<T>, s: seq<T>, j: nat)
    requires j < |s|
    ensures done + s[..j + 1] == (done + s[..j]) + [s[j]]
  {
    assert s[..j + 1] == s[..j] + [s[j]];
  }

  /** The `k`-th download fetches the `k`-th URL into the download directory. */
  lemma {:induction false} DownloadsOfAt(urls: seq<string>, k: nat)
    requires k < |urls|
    ensures DownloadsOf(urls)[k] == Download(urls[k], DownloadDir)
  {
    if k < |urls| - 1 {
      DownloadsOfAt(urls[..|urls| - 1], k);
    }
  }

  lemma {:induction false} QueuedUrlsAppend(a: seq<Record>, b: seq<Record>)
    ensures QueuedUrls(a + b) == QueuedUrls(a) + QueuedUrls(b)
  {
    if a == [] {
      assert a + b == b;
    } else {
      assert (a + b)[1..] == a[1..] + b;
      QueuedUrlsAppend(a[1..], b);
    }
  }

  /** Processing one more record adds its identifiers after those of the
    * records before it (nothing when it has no metadata). */
  lemma QueuedUrlsStep(records: seq<Record>, i: nat)
    requires i < |records|
    ensures QueuedUrls(records[..i + 1]) == QueuedUrls(records[..i]) + IdentifiersOf(records[i])
  {
    SplitAtIndex(records, i);
    QueuedUrlsAppend(records[..i], [records[i]]);
    assert [records[i]][1..] == [];
  }

  /** Dropping a record without metadata changes nothing that is downloaded. */
  lemma MissingMetadataQueuesNothing(records: seq<Record>, i: nat)
    requires i < |records| && records[i].None?
    ensures QueuedUrls(records) == QueuedUrls(records[..i] + records[i + 1..])
  {
    SplitAtIndex(records, i);
    QueuedUrlsAppend(records[..i + 1], records[i + 1..]);
    QueuedUrlsAppend(records[..i], records[i + 1..]);
    QueuedUrlsStep(records, i);
  }

  /** Identifier `j` of record `i` is queued at position
    * (identifiers of the records before `i`) + `j`. */
  lemma QueuedUrlsAt(records: seq<Record>, i: nat, j: nat)
    requires i < |records| && j < |IdentifiersOf(records[i])|
    ensures |QueuedUrls(records[..i])| + j < |QueuedUrls(records)|
    ensures QueuedUrls(records)[|QueuedUrls(records[..i])| + j] == IdentifiersOf(records[i])[j]
  {
    SplitAtIndex(records, i);
    QueuedUrlsAppend(records[..i + 1], records[i + 1..]);
    QueuedUrlsStep(records, i);
  }

  /** Every queued position holds identifier `j` of some record `i` with
    * metadata; with QueuedUrlsAt and QueuedUrlsStep (the slots of successive
    * records follow one another) each identifier is queued exactly once. */
  lemma {:induction false} QueuedUrlsCover(records: seq<Record>, k: nat) returns (i: nat, j: nat)
    requires k < |QueuedUrls(records)|
    ensures i < |records| && records[i].Some? && j < |records[i].value|
    ensures k == |QueuedUrls(records[..i])| + j
    ensures QueuedUrls(records)[k] == records[i].value[j]
  {
    var first := IdentifiersOf(records[0]);
    if k < |first| {
      i, j := 0, k;
      assert records[..0] == [];
    } else {
      var i', j' := QueuedUrlsCover(records[1..], k - |first|);
      i, j := i' + 1, j';
      assert records[..i][1..] == records[1..][..i'];
      assert records[1..][i'] == records[i];
    }
    QueuedUrlsAt(records, i, j);
  }

  // ---------------------------------------------------------------------
  // Errors that escape download_file
  // ---------------------------------------------------------------------

  // `download_file` catches only `RequestException`. Once the GET has
  // succeeded, an error from `open` or `write` (`IsADirectoryError` for a URL
  // ending in `/` or whose base name is `.` or `..`, any other `OSError`)
  // leaves it, ends the loop over the records and leaves
  // `download_documents_and_fulltext`. Whether it happens depends on the
  // server and the file system, so it is an input: `failingCall` is the first
  // call, counting from 0, that ends with such an error, if any. No call
  // after it is made, so which of those would have failed does not matter.

  /** Whether one of the calls for `urls` raises. */
  predicate RaisesWithin(urls: seq<string>, failingCall: Option<nat>) {
    failingCall.Some? && failingCall.value < |urls|
  }

  /** The URLs whose download is started: all of them, or those up to and
    * including the call that raises. */
  function Attempted(urls: seq<string>, failingCall: Option<nat>): (made: seq<string>)
    ensures |made| <= |urls| && made == urls[..|made|]
    ensures RaisesWithin(urls, failingCall) ==> |made| == failingCall.value + 1
    ensures !RaisesWithin(urls, failingCall) ==> made == urls
  {
    if RaisesWithin(urls, failingCall) then urls[..failingCall.value + 1] else urls
  }

  /** The URLs of a concatenation are attempted in turn: an error among the
    * first ones leaves all the later ones undownloaded, and otherwise the
    * later ones are attempted with the calls renumbered after the first. */
  lemma AttemptedAppend(a: seq<string>, b: seq<string>, failingCall: Option<nat>)
    ensures RaisesWithin(a, failingCall) ==> Attempted(a + b, failingCall) == Attempted(a, failingCall)
    ensures !RaisesWithin(a, failingCall) ==>
      Attempted(a + b, failingCall) == a + Attempted(b, Later(failingCall, |a|))
  {
    if RaisesWithin(a, failingCall) {
      assert (a + b)[..failingCall.value + 1] == a[..failingCall.value + 1];
    } else if RaisesWithin(a + b, failingCall) {
      var k := failingCall.value - |a|;
      assert (a + b)[..failingCall.value + 1] == a + b[..k + 1];
    }
  }

  /** The number of a call once the first `n` calls are left behind. */
  function Later(failingCall: Option<nat>, n: nat): (r: Option<nat>)
    ensures r.Some? <==> failingCall.Some? && failingCall.value >= n
    ensures r.Some? ==> r.value + n == failingCall.value
  {
    if failingCall.Some? && failingCall.value >= n then Some(failingCall.value - n) else None
  }

  // ---------------------------------------------------------------------
  // download_documents_and_fulltext
  // ---------------------------------------------------------------------

  /** When a call for record `i` raises and none before it did, the calls
    * made are those of the records before it followed by the calls of
    * record `i` up to the one that raises. */
  lemma RecordRaises(records: seq<Record>, i: nat, failingCall: Option<nat>)
    requires i < |records| && !RaisesWithin(QueuedUrls(records[..i]), failingCall)
    requires RaisesWithin(IdentifiersOf(records[i]), Later(failingCall, |QueuedUrls(records[..i])|))
    ensures RaisesWithin(QueuedUrls(records), failingCall)
    ensures Attempted(QueuedUrls(records), failingCall) ==
      QueuedUrls(records[..i]) + Attempted(IdentifiersOf(records[i]), Later(failingCall, |QueuedUrls(records[..i])|))
  {
    var done, identifiers, rest := QueuedUrls(records[..i]), IdentifiersOf(records[i]), QueuedUrls(records[i + 1..]);
    SplitAtIndex(records, i);
    QueuedUrlsAppend(records[..i + 1], records[i + 1..]);
    QueuedUrlsStep(records, i);
    assert QueuedUrls(records) == done + (identifiers + rest);
    AttemptedAppend(done, identifiers + rest, failingCall);
    AttemptedAppend(identifiers, rest, Later(failingCall, |done|));
  }

  /** The inner loop `for identifier in identifiers` of one record, after
    * `calls0` calls that made `downloads0` for the URLs `done` without
    * raising: the identifiers are downloaded in turn until a call raises. */
  method DownloadIdentifiers(identifiers: seq<string>, ghost done: seq<string>, downloads0: seq<Download>,
                             calls0: nat, failingCall: Option<nat>)
    returns (downloads: seq<Download>, calls: nat, raised: bool)
    requires calls0 == |done| && downloads0 == DownloadsOf(done)
    requires !RaisesWithin(done, failingCall)
    ensures raised <==> RaisesWithin(identifiers, Later(failingCall, calls0))
    ensures downloads == DownloadsOf(done + Attempted(identifiers, Later(failingCall, calls0)))
    ensures !raised ==> calls == calls0 + |identifiers|
  {
    downloads, calls, raised := downloads0, calls0, false;
    AppendEmptyTake(done, identifiers);
    var j := 0;
    while j < |identifiers|
      invariant j <= |identifiers| && calls == calls0 + j
      invariant downloads == DownloadsOf(done + identifiers[..j])
      invariant failingCall.None? || calls <= failingCall.value
    {
      var url := identifiers[j];
      TakeSnoc(done, identifiers, j);
      DownloadsOfSnoc(done + identifiers[..j], url);
      downloads := downloads + [DownloadOf(url)];
      if failingCall == Some(calls) {
        assert Attempted(identifiers, Later(failingCall, calls0)) == identifiers[..j + 1];
        raised := true;
        return;
      }
      calls, j := calls + 1, j + 1;
    }
    TakeAll(identifiers);
    assert Attempted(identifiers, Later(failingCall, calls0)) == identifiers;
  }

  /** The loop over the records: for each record that has metadata, one
    * `download_file` call per identifier, in order, until a call raises.
    * `raised` says whether one did. */
  method QueueDownloads(records: seq<Record>, failingCall: Option<nat>) returns (downloads: seq<Download>, raised: bool)
    ensures raised <==> RaisesWithin(QueuedUrls(records), failingCall)
    ensures downloads == DownloadsOf(Attempted(QueuedUrls(records), failingCall))
  {
    downloads, raised := [], false;
    var calls := 0;
    var i := 0;
    while i < |records|
      invariant i <= |records|
      invariant calls == |QueuedUrls(records[..i])|
      invariant downloads == DownloadsOf(QueuedUrls(records[..i]))
      invariant !RaisesWithin(QueuedUrls(records[..i]), failingCall)
    {
      QueuedUrlsStep(records, i);
      var record := records[i];
      if record.Some? {
        downloads, calls, raised := DownloadIdentifiers(record.value, QueuedUrls(records[..i]), downloads, calls, failingCall);
        if raised {
          RecordRaises(records, i, failingCall);
          return;
        }
      } else {
        AppendEmptyTake(QueuedUrls(records[..i]), []);
      }
      i := i + 1;
    }
    TakeAll(records);
  }

  /** `download_documents_and_fulltext(query, maxRecords)` when the search
    * service answers `reply` and call `failingCall`, if any, raises. A
    * blank query is refused before any request. Otherwise the search is sent
    * with SearchParams; on an HTTP failure, a malformed body or no records
    * nothing else happens. Otherwise the download directory is created and
    * every identifier of every record with metadata is downloaded, in record
    * order and then identifier order, until a download raises. */
  method DownloadDocumentsAndFulltext(query: string, reply: SearchReply, failingCall: Option<nat>,
                                      maxRecords: int := DefaultMaxRecords)
    returns (run: Run)
    ensures run.search.None? <==> IsBlank(query)
    ensures run.search.Some? ==> run.search.value == SearchRequest(SruEndpoint, SearchParams(query, maxRecords))
    ensures run.createdDir <==> run.search.Some? && reply.Parsed? && reply.records != []
    ensures run.createdDir ==> run.downloads == DownloadsOf(Attempted(QueuedUrls(reply.records), failingCall))
    ensures !run.createdDir ==> run.downloads == []
    ensures run.raised <==> run.createdDir && RaisesWithin(QueuedUrls(reply.records), failingCall)
  {
    if IsBlank(query) {
      return Run(None, false, [], false);
    }
    var request := SearchRequest(SruEndpoint, SearchParams(query, maxRecords));
    if !reply.Parsed? || reply.records == [] {
      return Run(Some(request), false, [], false);
    }
    var downloads, raised := QueueDownloads(reply.records, failingCall);
    run := Run(Some(request), true, downloads, raised);
  }
}
