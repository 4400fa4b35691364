# DLhumanities acquisition logic in Dafny

DLhumanities fetches digitised documents from Gallica, the digital library of
the Bibliothèque nationale de France. Its acquisition module builds a CQL
(Contextual Query Language) query from bibliographic field/value pairs and
sends it to Gallica's SRU (Search/Retrieve via URL) endpoint as a
`searchRetrieve` request. It then walks the records of the answer and
downloads every `dc:identifier` URL of every record that has metadata into a
local `downloads` directory.

This project models the deterministic part of that module and proves its
properties:

- `cql_query.dfy` (module `CqlQuery`): `build_cql_query` as the function
  `BuildCqlQuery` over an ordered sequence of keyword arguments. It also has
  an independent reader, `ParseQuery`, which is the partner in a round-trip
  lemma. Further lemmas cover filtering, order, separators and the missing
  escaping of quotes.
- `posix_path.dfy` (module `PosixPath`): the POSIX `os.path.basename` and
  two-component `os.path.join` that `download_file` uses to name the saved
  file.
- `acquisition.dfy` (module `Acquisition`): the `cql_query.strip()` guard
  with Python's whitespace set, and the fixed SRU parameter dictionary. It
  also holds the file path of a download and the nested loop over records
  (`QueueDownloads`) and identifiers (`DownloadIdentifiers`), which stops at
  the first error that `download_file` does not catch.
  `DownloadDocumentsAndFulltext` composes these into the whole decision logic
  of `download_documents_and_fulltext`.
- `wrappers.dfy` (module `Wrappers`): `Option`, standing for Python's `None`.

`download_documents_and_fulltext` always returns `None`, so what it does is
observable only through its effects. The model returns those effects as a
`Run`:

- the search request it sends, if any;
- whether it creates the download directory;
- the `download_file(url, download_dir)` calls it makes, in order;
- whether one of those calls raised an error that ended the whole call.

The search service's answer is an input, `SearchReply`. It is either an HTTP
failure, a body that is not well-formed XML, or the parsed records. Each
record is `None` when it has no `recordData` element; otherwise it is the
list of its identifier texts. `download_file` catches only
`RequestException`; any other error while saving a file ends the loop and the
whole call. Which call, if any, is the first to fail that way is a second
input, `failingCall`, counted from 0.

The function returns `None` on every path, including success.

## Model

| member | source | states |
|---|---|---|
| `CqlQuery.Clause` | dlhuma/acquistion.py:17 | the f-string `dc.{key} all '{value}'`; specified through `ParseClauseOf`, which reads the field and value back from it |
| `CqlQuery.Join` | dlhuma/acquistion.py:17 | `str.join`; specified by `JoinAppend` (joining a concatenation puts one separator between the two joins) and `JoinEnds` (a join starts with its first part and ends with its last) |
| `CqlQuery.BuildCqlQuery` | dlhuma/acquistion.py:8-17 | `build_cql_query`; specified by `ParseBuildRoundTrip`, `BuildAppend`, `EmptyQueryIffNoValue`, `NoOuterSeparator` and `QuoteInValueIsNotEscaped` |
| `CqlQuery.Kept` | dlhuma/acquistion.py:17 | the pairs kept by `if value` are at most the input's, all have a truthy value, and a pair is kept exactly when it is in the input with a non-empty value |
| `CqlQuery.KeptAppend` | dlhuma/acquistion.py:17 | filtering distributes over concatenation, so kept pairs keep their input order |
| `CqlQuery.EmptyQueryIffNoValue` | dlhuma/acquistion.py:17 | the query is the empty string exactly when no argument has a truthy value |
| `CqlQuery.BuildAppend` | dlhuma/acquistion.py:17 | the query for `a + b` is the query for `a`, then `" and "`, then the query for `b`, or only the non-empty one of them: clauses keep input order and separators never lead, trail or double |
| `CqlQuery.NoOuterSeparator` | dlhuma/acquistion.py:17 | a non-empty query starts with `dc.` and ends with the closing quote of its last clause |
| `CqlQuery.ParseBuildRoundTrip` | dlhuma/acquistion.py:17 | reading the query back yields exactly the kept pairs in order, each from one `dc.<field> all '<value>'` clause with its value verbatim, provided fields contain no space and values contain no quote |
| `CqlQuery.QuoteInValueIsNotEscaped` | dlhuma/acquistion.py:17 | values are not escaped: one value containing `' and dc.<g> all '` gives the same query as two separate arguments |
| `PosixPath.RFind` | dlhuma/acquistion.py:49 | `str.rfind`: -1 or an index holding the character, with no occurrence after it |
| `PosixPath.Basename` | dlhuma/acquistion.py:49 | the file name is a suffix of the URL that contains no `/`, and the character just before it, if any, is `/` |
| `PosixPath.Join` | dlhuma/acquistion.py:50 | posixpath `join` of two components; specified by `JoinName` and `BasenameOfJoin` |
| `PosixPath.BasenameUnique` | dlhuma/acquistion.py:49 | those three conditions determine the base name, so it is the longest suffix free of `/` |
| `PosixPath.BasenameOfJoin` | dlhuma/acquistion.py:49-50 | joining a name free of `/` onto any directory gives a path whose base name is that name |
| `PosixPath.JoinName` | dlhuma/acquistion.py:50 | a directory that is neither empty nor ends in `/` gets exactly one `/` before the name |
| `Acquisition.IsSpace` | dlhuma/acquistion.py:67 | the characters for which Python's `str.isspace` holds, the set `strip()` removes; used by `StripLeading`, `StripTrailing` and `BlankIffAllSpace` |
| `Acquisition.StripLeading` | dlhuma/acquistion.py:67 | `lstrip` removes a prefix of whitespace only and leaves a result that is empty or starts with non-whitespace |
| `Acquisition.StripTrailing` | dlhuma/acquistion.py:67 | `rstrip` removes a suffix of whitespace only and leaves a result that is empty or ends with non-whitespace |
| `Acquisition.Strip` | dlhuma/acquistion.py:67 | `str.strip()` as `rstrip` after `lstrip`; specified by the contracts of `StripLeading` and `StripTrailing` |
| `Acquisition.IsBlank` | dlhuma/acquistion.py:67 | the guard `not cql_query.strip()`; specified by `BlankIffAllSpace` and `BuiltQueryBlankIffNoValue` |
| `Acquisition.BlankIffAllSpace` | dlhuma/acquistion.py:67-69 | the query is refused exactly when every character is Python whitespace, the empty query included |
| `Acquisition.BuiltQueryBlankIffNoValue` | dlhuma/acquistion.py:67-69 | a query built by `build_cql_query` is refused exactly when none of its arguments had a truthy value |
| `Acquisition.Lookup` | dlhuma/acquistion.py:71-77 | reading a key of the `params` dictionary; specified by `LookupAt` (the first entry with a key gives its value) and used in the contract of `SearchParams` |
| `Acquisition.LookupAt` | dlhuma/acquistion.py:71-77 | an entry whose key no earlier entry has is what a lookup of that key returns |
| `Acquisition.SearchParams` | dlhuma/acquistion.py:71-77 | the request has five distinct keys: version `1.2`, operation `searchRetrieve`, the query unmodified, `startRecord` 1 and `maximumRecords` equal to `max_records` |
| `Acquisition.FilePath` | dlhuma/acquistion.py:49-50 | `os.path.join(download_dir, os.path.basename(url))`; specified by `FilePathInDownloadDir` and `TrailingSlashNamesDirectory` |
| `Acquisition.FilePathInDownloadDir` | dlhuma/acquistion.py:49-50 | a document is saved as `downloads/` plus the part of its URL after the last `/`, and the saved path's base name is that file name |
| `Acquisition.TrailingSlashNamesDirectory` | dlhuma/acquistion.py:49-50 | a URL ending in `/` has an empty file name, so its path is `downloads/` itself |
| `Acquisition.QueuedUrls` | dlhuma/acquistion.py:102-111 | the identifiers of every record with metadata, record after record; specified by `QueuedUrlsAppend`, `QueuedUrlsStep`, `QueuedUrlsAt`, `QueuedUrlsCover` and `MissingMetadataQueuesNothing` |
| `Acquisition.DownloadsOf` | dlhuma/acquistion.py:108-111 | one `download_file(url, "downloads")` call per URL, as many as there are URLs; specified by `DownloadsOfAt` |
| `Acquisition.DownloadsOfAt` | dlhuma/acquistion.py:108-111 | the k-th `download_file` call fetches the k-th queued URL into the download directory |
| `Acquisition.QueuedUrlsAppend` | dlhuma/acquistion.py:102-113 | the URLs queued for a concatenation of record lists are those of the first list followed by those of the second |
| `Acquisition.QueuedUrlsStep` | dlhuma/acquistion.py:102-111 | processing record i appends exactly that record's identifiers, or nothing when it has no metadata |
| `Acquisition.MissingMetadataQueuesNothing` | dlhuma/acquistion.py:104-113 | removing a record without `recordData` leaves the downloads unchanged |
| `Acquisition.QueuedUrlsAt` | dlhuma/acquistion.py:102-111 | identifier j of record i is queued at position (identifiers of earlier records) + j |
| `Acquisition.QueuedUrlsCover` | dlhuma/acquistion.py:102-111 | every queued position holds identifier j of some record i that has metadata, at exactly that position: each identifier occurrence is queued once, in record order and then identifier order |
| `Acquisition.Attempted` | dlhuma/acquistion.py:48-59 | the downloads started are a prefix of the queue: all of it when no call raises, otherwise exactly the calls up to and including the one that raises |
| `Acquisition.AttemptedAppend` | dlhuma/acquistion.py:102-111 | over two consecutive parts of the queue, an error in the first part leaves the whole second part undownloaded; otherwise the second part is attempted with its calls numbered after the first |
| `Acquisition.RecordRaises` | dlhuma/acquistion.py:102-111 | when a call for record i is the first to raise, the calls made are all those of the records before i followed by those of record i up to the failing one |
| `Acquisition.DownloadIdentifiers` | dlhuma/acquistion.py:108-111 | the inner loop over the identifiers of one record calls `download_file` for each identifier in order; it stops right after a call that raises and reports whether one did |
| `Acquisition.QueueDownloads` | dlhuma/acquistion.py:102-113 | the loop over the records makes the `download_file` calls for the queued URLs, in order, up to and including the first call that raises, and reports whether one did |
| `Acquisition.DownloadDocumentsAndFulltext` | dlhuma/acquistion.py:62-113 | no request is sent exactly when the query is blank; otherwise the SRU request carries `SearchParams`. The directory is created exactly when the request was sent and returned at least one parsed record, and only then are downloads made: the queued ones, in order, up to and including the first call that raises. The run ends with an escaped error exactly when such a call is reached |

## Left out

- HTTP traffic is not modelled: `requests.get`, `raise_for_status`, timeouts and the `RequestException` handlers in `test_query_response` (dlhuma/acquistion.py:20-41). The outcome of the search is the input `SearchReply.HttpFailure`.
- A `RequestException` in `download_file` is caught and logged (dlhuma/acquistion.py:51-52, 58-59). It does not affect the loop, so the model records the call and not its outcome.
- Which download raises an error that `download_file` does not catch is not derived from the URL or the file system: it is the input `failingCall`. Such an error can be `IsADirectoryError` for a URL ending in `/` or whose base name is `.` or `..`, or any other `OSError` from `open` or `write` (dlhuma/acquistion.py:53-54). It ends the loop at dlhuma/acquistion.py:108-111 and the whole call. The model records that the run ended this way, but not the exception's type or message.
- XML parsing with `ElementTree` is not modelled (dlhuma/acquistion.py:86-87, 104, 106). A `ParseError` is `SearchReply.Malformed`. The parsed records are given as data.
- An identifier element without text makes `identifier.text` `None`. `os.path.basename(None)` then raises a `TypeError` that nothing catches. The model takes identifiers to be strings.
- Writing the downloaded bytes is not modelled (dlhuma/acquistion.py:53-54). For a URL ending in `/`, the path is the directory itself (`TrailingSlashNamesDirectory`), so `open("downloads/", "wb")` raises. That call ends the run as described above, once `failingCall` names it.
- `os.makedirs` (dlhuma/acquistion.py:99) is modelled only as the `createdDir` flag of `Run`.
- Logging with `print`, and `urlencode` (used only in a log line), are not modelled.
- Encoding the parameter dictionary into the request URL is done by the HTTP library and is not modelled. The dictionary is a sequence of pairs in insertion order.
- `build_cql_query` accepts values of any type, and Python treats `None`, `0` and `False` as falsy. The model takes string values, so the empty string is the only falsy one. Keyword-argument order is call order, as in Python 3.7 and later.
- `PosixPath.Basename` and `PosixPath.Join` follow POSIX `posixpath`. Windows `ntpath` semantics are not modelled.
- `CqlQuery.ParseBuildRoundTrip` holds only for fields without spaces and values without quotes. This is not a weakening: `QuoteInValueIsNotEscaped` shows that other values make the query ambiguous.
- dlhuma/conversion.py is not part of this model. It wraps OCR (PIL and pytesseract) and speech recognition (a transformers model) and has no logic of its own.
